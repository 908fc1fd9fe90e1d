/** The periodic tasks: the promo lifecycle tick with its notify requests,
    the split of an audience into push batches, the anti-spam log insert,
    and the re-notification of active promos (flash_promo/tasks.py). A
    queued task is modelled by the value that would be queued. */
module Tasks {
  import opened Wrappers
  import opened Constants
  import opened Models
  import opened Queries
  import opened Services

  /** Users per push batch. */
  const BATCH_SIZE: nat := 1000

  // ---------- the lifecycle tick ----------

  /** The activation filter: SCHEDULED with `starts_at <= now < ends_at`. */
  predicate ShouldActivate(p: FlashPromo, now: Time) {
    p.status == Scheduled && p.startsAt <= now && now < p.endsAt
  }

  /** The finishing filter: ACTIVE with `ends_at < now`. */
  predicate ShouldFinish(p: FlashPromo, now: Time) {
    p.status == Active && p.endsAt < now
  }

  function ToActivate(promos: map<PromoId, FlashPromo>, now: Time): (r: set<PromoId>)
    ensures forall id :: id in r <==> id in promos && ShouldActivate(promos[id], now)
  {
    set id | id in promos && ShouldActivate(promos[id], now)
  }

  function ToFinish(promos: map<PromoId, FlashPromo>, now: Time): (r: set<PromoId>)
    ensures forall id :: id in r <==> id in promos && ShouldFinish(promos[id], now)
  {
    set id | id in promos && ShouldFinish(promos[id], now)
  }

  /** `activate_and_notify_promos` on the promo table: the activation loop,
      then the bulk finishing update over the table it left. */
  function Tick(promos: map<PromoId, FlashPromo>, now: Time): (r: map<PromoId, FlashPromo>)
    ensures r.Keys == promos.Keys
  {
    var activated := Overwrite(promos, ToActivate(promos, now), Active);
    Overwrite(activated, ToFinish(activated, now), Finished)
  }

  /** What the tick does to one promo: a promo it activates is not finished
      in the same tick, and every field but the status is kept. */
  lemma TickPointwise(promos: map<PromoId, FlashPromo>, now: Time, id: PromoId)
    requires id in promos
    ensures Tick(promos, now).Keys == promos.Keys
    ensures Tick(promos, now)[id]
         == if ShouldActivate(promos[id], now) then promos[id].(status := Active)
            else if ShouldFinish(promos[id], now) then promos[id].(status := Finished)
            else promos[id]
  {
    var activated := Overwrite(promos, ToActivate(promos, now), Active);
    assert activated[id] == if ShouldActivate(promos[id], now) then promos[id].(status := Active) else promos[id];
  }

  /** The tick only moves a status forward. */
  lemma TickMovesForward(promos: map<PromoId, FlashPromo>, now: Time, id: PromoId)
    requires id in promos
    ensures id in Tick(promos, now)
    ensures Tick(promos, now)[id].status.Rank() >= promos[id].status.Rank()
    ensures Tick(promos, now)[id] == promos[id].(status := Tick(promos, now)[id].status)
  {
    TickPointwise(promos, now, id);
  }

  /** A SCHEDULED promo whose window has already closed is never activated,
      so the tick leaves it SCHEDULED. */
  lemma StaleScheduledStays(promos: map<PromoId, FlashPromo>, now: Time, id: PromoId)
    requires id in promos && promos[id].status == Scheduled && promos[id].endsAt <= now
    ensures id in Tick(promos, now) && Tick(promos, now)[id].status == Scheduled
  {
    TickPointwise(promos, now, id);
  }

  /** A second tick at the same instant changes nothing and activates
      nothing, so it queues no notification. */
  lemma TickIdempotent(promos: map<PromoId, FlashPromo>, now: Time)
    ensures Tick(Tick(promos, now), now) == Tick(promos, now)
    ensures ToActivate(Tick(promos, now), now) == {}
  {
    var once := Tick(promos, now);
    forall id | id in promos
      ensures Tick(once, now)[id] == once[id]
      ensures !ShouldActivate(once[id], now)
    {
      TickPointwise(promos, now, id);
      TickPointwise(once, now, id);
    }
    assert Tick(once, now).Keys == once.Keys;
  }

  /** The tick and the "active now" filter agree: right after a tick at
      `now`, a promo is active now exactly when it already was, or the tick
      has just activated it. */
  lemma {:induction false} TickActiveNow(promos: map<PromoId, FlashPromo>, now: Time, id: PromoId)
    requires id in promos
    ensures id in Tick(promos, now)
    ensures IsActiveNow(Tick(promos, now)[id], now) <==> IsActiveNow(promos[id], now) || ShouldActivate(promos[id], now)
  {
    TickPointwise(promos, now, id);
  }

  /** A promo a tick activates is not among the promos the same instant
      would finish, so a second tick at `now` keeps it ACTIVE. */
  lemma {:induction false} ActivatedNotFinished(promos: map<PromoId, FlashPromo>, now: Time)
    ensures ToActivate(promos, now) !! ToFinish(Tick(promos, now), now)
  {
    forall id | id in ToActivate(promos, now)
      ensures id !in ToFinish(Tick(promos, now), now)
    {
      TickPointwise(promos, now, id);
    }
  }

  /** One more activation in the loop changes one row. */
  lemma ActivateStep(promos: map<PromoId, FlashPromo>, done: set<PromoId>, id: PromoId, cur: map<PromoId, FlashPromo>)
    requires id in promos && cur == Overwrite(promos, done, Active)
    ensures id in cur
    ensures Overwrite(promos, done + {id}, Active) == cur[id := cur[id].(status := Active)]
  {
    var a := Overwrite(promos, done + {id}, Active);
    var b := cur[id := cur[id].(status := Active)];
    forall k | k in promos
      ensures a[k] == b[k]
    {
    }
    assert a.Keys == b.Keys;
  }

  /** `activate_and_notify_promos()` at time `now`: the new promo table is
      the tick of the old one, and the queued notify requests name every
      promo this tick activates, each once. */
  method ActivateAndNotifyPromos(db: Database, now: Time) returns (notified: seq<PromoId>)
    requires db.Valid()
    modifies db`promos
    ensures db.Valid()
    ensures db.promos == Tick(old(db.promos), now)
    ensures EnumerationOf(notified, ToActivate(old(db.promos), now))
  {
    var promos0 := db.promos;
    var toActivate := ToActivate(promos0, now);
    var promos := promos0;
    var remaining := toActivate;
    ghost var done: set<PromoId> := {};
    notified := [];
    assert Overwrite(promos0, {}, Active) == promos0;
    while remaining != {}
      invariant remaining !! done && remaining <= toActivate && done <= toActivate
      invariant forall x :: x in toActivate ==> x in remaining || x in done
      invariant promos == Overwrite(promos0, done, Active)
      invariant Distinct(notified) && forall x :: x in notified <==> x in done
      decreases remaining
    {
      var id :| id in remaining;
      ActivateStep(promos0, done, id, promos);
      promos := promos[id := promos[id].(status := Active)];
      notified := notified + [id];
      remaining, done := remaining - {id}, done + {id};
    }
    assert done == toActivate;
    var finished := Overwrite(promos, ToFinish(promos, now), Finished);
    StatusChangeKeepsCatalog(db.stores, db.products, db.storeProducts, promos0, finished, db.profiles, db.notificationLog);
    SameKeysKeepPromos(db.reservations, promos0, finished);
    db.promos := finished;
  }

  // ---------- batching ----------

  /** The end of the slice `user_ids[i:i+BATCH_SIZE]`, clipped as Python
      clips it. */
  function BatchEnd(ids: seq<UserId>, i: nat): (e: nat)
    requires i <= |ids|
    ensures i <= e <= |ids| && e - i <= BATCH_SIZE
  {
    if i + BATCH_SIZE < |ids| then i + BATCH_SIZE else |ids|
  }

  /** The slices `user_ids[i:i+BATCH_SIZE]` for i = from, from + BATCH_SIZE,
      ... below `len(user_ids)`. */
  function Batches(ids: seq<UserId>, from: nat): (r: seq<seq<UserId>>)
    ensures forall j :: 0 <= j < |r| ==> 0 < |r[j]| <= BATCH_SIZE
    ensures (r == []) <==> (from >= |ids|)
    decreases |ids| - from
  {
    if from >= |ids| then []
    else [ids[from..BatchEnd(ids, from)]] + Batches(ids, from + BATCH_SIZE)
  }

  function Flatten(batches: seq<seq<UserId>>): seq<UserId>
    decreases |batches|
  {
    if batches == [] then [] else batches[0] + Flatten(batches[1..])
  }

  /** The batches put back together are the ids, in order. */
  lemma {:induction false} BatchesFlatten(ids: seq<UserId>, from: nat)
    requires from <= |ids|
    ensures Flatten(Batches(ids, from)) == ids[from..]
    decreases |ids| - from
  {
    if from < |ids| {
      var e := BatchEnd(ids, from);
      if e < |ids| {
        BatchesFlatten(ids, e);
        assert ids[from..] == ids[from..e] + ids[e..];
      } else {
        assert Batches(ids, from + BATCH_SIZE) == [];
      }
    }
  }

  /** Every batch but the last is full, and there are ceil(n / 1000) of them. */
  lemma {:induction false} BatchesSizes(ids: seq<UserId>, from: nat)
    requires from <= |ids|
    ensures forall j :: 0 <= j < |Batches(ids, from)| - 1 ==> |Batches(ids, from)[j]| == BATCH_SIZE
    ensures |Batches(ids, from)| == (|ids| - from + BATCH_SIZE - 1) / BATCH_SIZE
    decreases |ids| - from
  {
    if from + BATCH_SIZE < |ids| {
      BatchesSizes(ids, from + BATCH_SIZE);
    }
  }

  /** A queued `send_push_batch(promo_id, user_ids)`. */
  datatype Job = SendPushBatchJob(promo: PromoId, userIds: seq<UserId>)

  function JobsFor(promo: PromoId, batches: seq<seq<UserId>>): (r: seq<Job>)
    ensures |r| == |batches|
    ensures forall j :: 0 <= j < |r| ==> r[j] == SendPushBatchJob(promo, batches[j])
    decreases |batches|
  {
    if batches == [] then [] else [SendPushBatchJob(promo, batches[0])] + JobsFor(promo, batches[1..])
  }

  datatype TaskError = PromoDoesNotExist

  /** One turn of the batching loop queues the job of the first batch. */
  lemma JobsStep(promo: PromoId, ids: seq<UserId>, i: nat)
    requires i < |ids|
    ensures JobsFor(promo, Batches(ids, i))
         == [SendPushBatchJob(promo, ids[i..BatchEnd(ids, i)])] + JobsFor(promo, Batches(ids, i + BATCH_SIZE))
  {
    var b := Batches(ids, i);
    assert b[1..] == Batches(ids, i + BATCH_SIZE);
  }

  /** `notify_promo(promo_id)`. `userIds` is the audience query's result in
      the database's order: every user to notify, each once. */
  method NotifyPromo(db: Database, within: WithinRadius, promoId: PromoId, today: Date, userIds: seq<UserId>)
    returns (r: Result<seq<Job>, TaskError>)
    requires promoId in db.promos && Resolves(db.storeProducts, db.stores, db.promos[promoId]) ==>
      EnumerationOf(userIds, ProfilesToNotifyForPromo(within, db.profiles, db.storeProducts, db.stores, db.notificationLog, promoId, db.promos[promoId], today))
    ensures r.Failure? <==> promoId !in db.promos
    ensures r.Success? ==> r.value == JobsFor(promoId, Batches(userIds, 0))
  {
    if promoId !in db.promos {
      return Failure(PromoDoesNotExist);
    }
    var jobs: seq<Job> := [];
    var i: nat := 0;
    ghost var all := JobsFor(promoId, Batches(userIds, 0));
    while i < |userIds|
      invariant jobs + JobsFor(promoId, Batches(userIds, i)) == all
      decreases |userIds| - i
    {
      var end := if i + BATCH_SIZE < |userIds| then i + BATCH_SIZE else |userIds|;
      var job := SendPushBatchJob(promoId, userIds[i..end]);
      JobsStep(promoId, userIds, i);
      assert jobs + [job] + JobsFor(promoId, Batches(userIds, i + BATCH_SIZE)) == all;
      jobs := jobs + [job];
      i := i + BATCH_SIZE;
    }
    r := Success(jobs);
  }

  /** The jobs of a notify cover its audience exactly: every user to notify
      is in exactly the batches that flatten back to the query's ids. */
  lemma NotifyCoversAudience(within: WithinRadius, db: Database, promoId: PromoId, today: Date, userIds: seq<UserId>)
    requires promoId in db.promos && Resolves(db.storeProducts, db.stores, db.promos[promoId])
    requires EnumerationOf(userIds, ProfilesToNotifyForPromo(within, db.profiles, db.storeProducts, db.stores, db.notificationLog, promoId, db.promos[promoId], today))
    ensures Flatten(Batches(userIds, 0)) == userIds
    ensures forall u :: u in Flatten(Batches(userIds, 0)) <==>
      u in ProfilesToNotifyForPromo(within, db.profiles, db.storeProducts, db.stores, db.notificationLog, promoId, db.promos[promoId], today)
    ensures userIds == [] <==> JobsFor(promoId, Batches(userIds, 0)) == []
  {
    BatchesFlatten(userIds, 0);
    assert userIds[0..] == userIds;
  }

  // ---------- the anti-spam log ----------

  /** The NotificationLog keys `send_push_batch` builds for a batch. */
  function LogKeys(promoId: PromoId, userIds: seq<UserId>, today: Date): (r: set<NotificationKey>)
    ensures forall k :: k in r <==> k.promo == promoId && k.sentDate == today && k.user in userIds
  {
    set u | u in userIds :: NewNotificationKey(u, promoId, today)
  }

  /** `bulk_create(..., ignore_conflicts=True)`: a key already present is
      skipped, so inserting is set union. */
  function InsertLog(log: set<NotificationKey>, promoId: PromoId, userIds: seq<UserId>, today: Date): (r: set<NotificationKey>)
    ensures log <= r
    ensures forall k :: k in r ==> k in log || (k.promo == promoId && k.sentDate == today && k.user in userIds)
    ensures forall u :: u in userIds ==> NewNotificationKey(u, promoId, today) in r
  {
    log + LogKeys(promoId, userIds, today)
  }

  /** Running a batch twice logs nothing more than running it once. */
  lemma InsertLogIdempotent(log: set<NotificationKey>, promoId: PromoId, userIds: seq<UserId>, today: Date)
    ensures InsertLog(InsertLog(log, promoId, userIds, today), promoId, userIds, today) == InsertLog(log, promoId, userIds, today)
  {
  }

  /** Once every batch of a notify has run, nobody is left to notify for
      that promo today. */
  lemma {:induction false} FanOutEmptiesAudience(
    within: WithinRadius,
    profiles: map<UserId, Profile>,
    sps: map<StoreProductId, StoreProduct>,
    stores: map<StoreId, Store>,
    log: set<NotificationKey>,
    promoId: PromoId,
    promo: FlashPromo,
    today: Date,
    userIds: seq<UserId>)
    requires Resolves(sps, stores, promo)
    requires EnumerationOf(userIds, ProfilesToNotifyForPromo(within, profiles, sps, stores, log, promoId, promo, today))
    ensures ProfilesToNotifyForPromo(within, profiles, sps, stores, InsertAll(log, promoId, Batches(userIds, 0), today), promoId, promo, today) == {}
  {
    BatchesFlatten(userIds, 0);
    assert userIds[0..] == userIds;
    InsertAllFlatten(log, promoId, Batches(userIds, 0), today);
    var after := InsertAll(log, promoId, Batches(userIds, 0), today);
    forall u | u in EligibleProfilesForPromo(within, profiles, sps, stores, promo)
      ensures NewNotificationKey(u, promoId, today) in after
    {
      if NewNotificationKey(u, promoId, today) !in log {
        assert u in userIds;
      }
    }
    assert ProfilesToNotifyForPromo(within, profiles, sps, stores, after, promoId, promo, today) == {};
  }

  /** The log after each batch in turn has run. */
  function InsertAll(log: set<NotificationKey>, promoId: PromoId, batches: seq<seq<UserId>>, today: Date): set<NotificationKey>
    decreases |batches|
  {
    if batches == [] then log else InsertAll(InsertLog(log, promoId, batches[0], today), promoId, batches[1..], today)
  }

  /** Running the batches one by one logs the same keys as one insert of
      all their users. */
  lemma {:induction false} InsertAllFlatten(log: set<NotificationKey>, promoId: PromoId, batches: seq<seq<UserId>>, today: Date)
    ensures InsertAll(log, promoId, batches, today) == InsertLog(log, promoId, Flatten(batches), today)
    decreases |batches|
  {
    if batches != [] {
      InsertAllFlatten(InsertLog(log, promoId, batches[0], today), promoId, batches[1..], today);
      assert LogKeys(promoId, batches[0] + Flatten(batches[1..]), today)
          == LogKeys(promoId, batches[0], today) + LogKeys(promoId, Flatten(batches[1..]), today);
    }
  }

  /** `send_push_batch(promo_id, user_ids)` on `today`. An empty batch
      sends no query at all; otherwise a promo that no longer exists makes
      the insert fail on its foreign key, and nothing is written. */
  method SendPushBatch(db: Database, promoId: PromoId, userIds: seq<UserId>, today: Date) returns (r: Result<(), TaskError>)
    requires db.Valid()
    modifies db`notificationLog
    ensures db.Valid()
    ensures r.Failure? <==> promoId !in db.promos && userIds != []
    ensures db.notificationLog == if r.Success? then InsertLog(old(db.notificationLog), promoId, userIds, today) else old(db.notificationLog)
  {
    if userIds == [] {
      assert LogKeys(promoId, userIds, today) == {};
      return Success(());
    }
    if promoId !in db.promos {
      return Failure(PromoDoesNotExist);
    }
    db.notificationLog := InsertLog(db.notificationLog, promoId, userIds, today);
    r := Success(());
  }

  // ---------- re-notification ----------

  /** `notify_active_promos` filter: ACTIVE and inside the closed window. */
  function ActiveNow(promos: map<PromoId, FlashPromo>, now: Time): (r: set<PromoId>)
    ensures forall id :: id in r <==> id in promos && IsActiveNow(promos[id], now)
  {
    set id | id in promos && promos[id].status == Active && promos[id].startsAt <= now && now <= promos[id].endsAt
  }

  /** `notify_active_promos()` at `now`: one notify request per promo active
      now, each once; no status changes (the method modifies nothing). */
  method NotifyActivePromos(db: Database, now: Time) returns (notified: seq<PromoId>)
    ensures EnumerationOf(notified, ActiveNow(db.promos, now))
  {
    var actives := ActiveNow(db.promos, now);
    var remaining := actives;
    notified := [];
    while remaining != {}
      invariant remaining <= actives
      invariant Distinct(notified)
      invariant forall x :: x in notified <==> x in actives && x !in remaining
      decreases remaining
    {
      var id :| id in remaining;
      notified := notified + [id];
      remaining := remaining - {id};
    }
  }
}
