/** The read-side queries over profiles and promos: the behaviour flag, the
    distance eligibility of one user for one promo, the active promos a
    profile may see, and the profile lookup (flash_promo/queries.py). */
module Queries {
  import opened Wrappers
  import opened Constants
  import opened Models

  /** `a` lies within `r` metres of `b`. The geodesic distance itself is a
      parameter of the model; only its use is modelled. */
  type WithinRadius = (Point, Point, int) -> bool

  /** The predicate measures a symmetric distance. */
  ghost predicate Symmetric(within: WithinRadius) {
    forall a, b, r :: within(a, b, r) == within(b, a, r)
  }

  /** `geom__distance_lte=(other, D(m=r))`: a missing geometry compares as
      SQL NULL and never matches. */
  predicate Near(within: WithinRadius, geom: Option<Point>, other: Option<Point>, r: int) {
    geom.Some? && other.Some? && within(geom.value, other.value, r)
  }

  /** `_behavior_ok`: a new user or a frequent one. */
  predicate BehaviorOk(p: Profile) {
    p.isNewUser || p.isFrequent
  }

  /** `user_is_eligible_for_promo`: behaviour first, then the promo's store
      within `radius` of the profile's location. */
  function UserIsEligibleForPromo(
    within: WithinRadius,
    profile: Profile,
    sps: map<StoreProductId, StoreProduct>,
    stores: map<StoreId, Store>,
    promo: FlashPromo,
    radius: int): (r: bool)
    requires Resolves(sps, stores, promo)
    ensures !BehaviorOk(profile) ==> !r
    ensures r ==> profile.geom.Some?
  {
    if !BehaviorOk(profile) then false
    else Near(within, Some(PromoStore(sps, stores, promo).geom), profile.geom, radius)
  }

  /** The behaviour check comes first: when it fails the answer does not
      depend on the distance predicate, the radius or the store. */
  lemma IneligibleWhateverTheDistance(
    within: WithinRadius, within': WithinRadius,
    profile: Profile,
    sps: map<StoreProductId, StoreProduct>, stores: map<StoreId, Store>,
    promo: FlashPromo, promo': FlashPromo,
    radius: int, radius': int)
    requires Resolves(sps, stores, promo) && Resolves(sps, stores, promo')
    requires !BehaviorOk(profile)
    ensures UserIsEligibleForPromo(within, profile, sps, stores, promo, radius)
         == UserIsEligibleForPromo(within', profile, sps, stores, promo', radius')
  {
  }

  /** With the behaviour flag set, eligibility is exactly the distance test
      between the store and a present profile location. */
  lemma EligibleIffNear(
    within: WithinRadius, profile: Profile,
    sps: map<StoreProductId, StoreProduct>, stores: map<StoreId, Store>,
    promo: FlashPromo, radius: int)
    requires Resolves(sps, stores, promo)
    ensures UserIsEligibleForPromo(within, profile, sps, stores, promo, radius)
        <==> BehaviorOk(profile) && profile.geom.Some?
             && within(PromoStore(sps, stores, promo).geom, profile.geom.value, radius)
  {
  }

  /** `active_promos_for_profile`: the ids of the promos the profile may see
      at `now`. A set, hence free of duplicates; the query orders nothing. */
  function ActivePromosForProfile(
    within: WithinRadius,
    profile: Profile,
    promos: map<PromoId, FlashPromo>,
    sps: map<StoreProductId, StoreProduct>,
    stores: map<StoreId, Store>,
    now: Time,
    radius: int): (r: set<PromoId>)
    ensures r <= promos.Keys
    ensures !BehaviorOk(profile) ==> r == {}
    ensures forall id :: id in r <==>
      id in promos && IsActiveNow(promos[id], now) && Resolves(sps, stores, promos[id])
      && UserIsEligibleForPromo(within, profile, sps, stores, promos[id], radius)
  {
    if !BehaviorOk(profile) then {}
    else
      set id | id in promos
        && promos[id].status == Active && promos[id].startsAt <= now && now <= promos[id].endsAt
        && Resolves(sps, stores, promos[id])
        && Near(within, Some(PromoStore(sps, stores, promos[id]).geom), profile.geom, radius)
  }

  /** In a valid store every promo resolves, so the list is exactly the
      promos active now for which the user is eligible. */
  lemma ActivePromosMatchEligibility(within: WithinRadius, profile: Profile, db: Database, now: Time, id: PromoId)
    requires db.Valid() && id in db.promos
    ensures Resolves(db.storeProducts, db.stores, db.promos[id])
    ensures id in ActivePromosForProfile(within, profile, db.promos, db.storeProducts, db.stores, now, MINIMUM_DISTANCE)
        <==> IsActiveNow(db.promos[id], now)
             && UserIsEligibleForPromo(within, profile, db.storeProducts, db.stores, db.promos[id], MINIMUM_DISTANCE)
  {
    ValidPromoResolves(db, id);
  }

  datatype QueryError = ProfileDoesNotExist(user: UserId)

  /** `get_profile_by_user`: the user's profile, or ProfileDoesNotExist. */
  function GetProfileByUser(profiles: map<UserId, Profile>, user: UserId): (r: Result<Profile, QueryError>)
    ensures r.Success? <==> user in profiles
    ensures r.Success? ==> r.value == profiles[user]
    ensures r.Failure? ==> r.error == ProfileDoesNotExist(user)
  {
    if user in profiles then Success(profiles[user]) else Failure(ProfileDoesNotExist(user))
  }

  /** Profiles are keyed by their one-to-one user, so a found profile
      belongs to the user asked for. */
  lemma FoundProfileBelongsToUser(db: Database, user: UserId)
    requires db.Valid()
    ensures GetProfileByUser(db.profiles, user).Success? ==> GetProfileByUser(db.profiles, user).value.user == user
  {
  }
}
