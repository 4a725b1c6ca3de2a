/** The availability handlers of backend/routes/availability.js as state
    transformers over the record store. The caller is the session user;
    the record's user is always the caller, so nobody can vote for someone
    else. */
module AvailabilityRoutes {
  import opened Common
  import opened AvailabilityModel
  import opened Trips

  /** `GET /trips/:id/availability`: every record of the trip, of every
      member, once the access guard passes. */
  function GetAvailability(trips: TripStore, store: Store, tripId: TripId, caller: UserId): (r: Outcome<Store>)
    ensures r.Ok? <==> tripId in trips && HasAccess(trips[tripId], caller)
    ensures tripId !in trips ==> r == Fail(NotFound)
    ensures tripId in trips && !HasAccess(trips[tripId], caller) ==> r == Fail(Forbidden)
    ensures r.Ok? ==> forall k :: k in r.value <==> k in store && k.trip == tripId
    ensures r.Ok? ==> forall k :: k in r.value ==> r.value[k] == store[k]
  {
    match Authorize(trips, tripId, caller)
    case Fail(f) => Fail(f)
    case Ok(_) => Ok(OfTrip(store, tripId))
  }

  /** `POST /trips/:id/availability`. Both fields are checked before the
      trip is looked up, and the status before access; the upsert is keyed
      on the session user. A date that is not a date passes the truthiness
      check and makes the store's cast fail. */
  function SetAvailability(trips: TripStore, store: Store, tripId: TripId, caller: UserId,
                           date: DateArg, status: Option<string>, now: int): (r: Step<Store, Entry>)
    ensures !DateGiven(date) || !Truthy(status) ==> r == Step(Fail(BadRequest), store)
    ensures Truthy(status) && ParseStatus(status.value).None? ==> r == Step(Fail(BadRequest), store)
    ensures DateGiven(date) && Truthy(status) && ParseStatus(status.value).Some?
            ==> (tripId !in trips <==> r.result == Fail(NotFound))
    ensures DateGiven(date) && Truthy(status) && ParseStatus(status.value).Some?
            && tripId in trips && !HasAccess(trips[tripId], caller)
            ==> r == Step(Fail(Forbidden), store)
    ensures DateGiven(date) && Truthy(status) && ParseStatus(status.value).Some?
            && tripId in trips && HasAccess(trips[tripId], caller) && date.Unparseable?
            ==> r == Step(Fail(ServerError), store)
    ensures r.result.Fail? ==> r.state == store
    ensures r.result.Ok? <==>
      && date.At? && Truthy(status) && ParseStatus(status.value).Some?
      && tripId in trips && HasAccess(trips[tripId], caller)
    ensures r.result.Ok? ==>
      var key := Key(tripId, caller, date.t);
      && r.state.Keys == store.Keys + {key}
      && r.state[key] == r.result.value
      && StatusName(r.result.value.status) == status.value
      && r.result.value.updatedAt == now
      && (forall k :: k in store && k != key ==> r.state[k] == store[k])
  {
    if !DateGiven(date) || !Truthy(status) then Step(Fail(BadRequest), store)
    else match ParseStatus(status.value)
      case None => Step(Fail(BadRequest), store)
      case Some(s) =>
        match Authorize(trips, tripId, caller)
        case Fail(f) => Step(Fail(f), store)
        case Ok(_) =>
          if date.Unparseable? then Step(Fail(ServerError), store)
          else
            var key := Key(tripId, caller, date.t);
            var next := Upsert(store, key, s, now);
            Step(Ok(next[key]), next)
  }

  /** `DELETE /trips/:id/availability`: removes the caller's record for the
      date if there is one; an absent record is not an error. */
  function ClearAvailability(trips: TripStore, store: Store, tripId: TripId, caller: UserId,
                             date: DateArg): (r: Step<Store, ()>)
    ensures !DateGiven(date) ==> r == Step(Fail(BadRequest), store)
    ensures DateGiven(date) && tripId !in trips ==> r == Step(Fail(NotFound), store)
    ensures DateGiven(date) && tripId in trips && !HasAccess(trips[tripId], caller)
            ==> r == Step(Fail(Forbidden), store)
    ensures r.result.Fail? ==> r.state == store
    ensures DateGiven(date) && tripId in trips && HasAccess(trips[tripId], caller) && date.Unparseable?
            ==> r == Step(Fail(ServerError), store)
    ensures r.result.Ok? <==> date.At? && tripId in trips && HasAccess(trips[tripId], caller)
    ensures r.result.Ok? ==>
      && r.state.Keys == store.Keys - {Key(tripId, caller, date.t)}
      && (forall k :: k in r.state ==> r.state[k] == store[k])
  {
    if !DateGiven(date) then Step(Fail(BadRequest), store)
    else match Authorize(trips, tripId, caller)
      case Fail(f) => Step(Fail(f), store)
      case Ok(_) =>
        if date.Unparseable? then Step(Fail(ServerError), store)
        else Step(Ok(()), Delete(store, Key(tripId, caller, date.t)))
  }

  /** The two stores agree on every record of users other than `caller`. */
  ghost predicate OthersUnchanged(before: Store, after: Store, caller: UserId) {
    forall k: Key :: k.user != caller ==> (k in before <==> k in after) && (k in before ==> before[k] == after[k])
  }

  /** Nobody can change another user's votes: whatever the request, the
      records of every other user are exactly as before. */
  lemma WritesOnlyOwnVotes(trips: TripStore, store: Store, tripId: TripId, caller: UserId,
                           date: DateArg, status: Option<string>, now: int)
    ensures OthersUnchanged(store, SetAvailability(trips, store, tripId, caller, date, status, now).state, caller)
    ensures OthersUnchanged(store, ClearAvailability(trips, store, tripId, caller, date).state, caller)
  {
  }

  /** Votes on the same triple overwrite each other: after any run of
      successful sets there is one record, holding the latest status. */
  lemma LatestVoteWins(trips: TripStore, store: Store, tripId: TripId, caller: UserId,
                       day: int, first: string, second: string, t1: int, t2: int)
    requires tripId in trips && HasAccess(trips[tripId], caller)
    requires ParseStatus(first).Some? && ParseStatus(second).Some?
    ensures
      var s1 := SetAvailability(trips, store, tripId, caller, At(day), Some(first), t1);
      var s2 := SetAvailability(trips, s1.state, tripId, caller, At(day), Some(second), t2);
      var key := Key(tripId, caller, day);
      && s1.result.Ok? && s2.result.Ok?
      && s2.state.Keys == store.Keys + {key}
      && s2.state[key].status == ParseStatus(second).value
      && (forall k :: k in store && k != key ==> s2.state[k] == store[k])
  {
  }

  /** Clearing twice leaves the same store as clearing once, and clearing a
      day without a vote succeeds and changes nothing. */
  lemma ClearIdempotent(trips: TripStore, store: Store, tripId: TripId, caller: UserId, date: DateArg)
    ensures
      var once := ClearAvailability(trips, store, tripId, caller, date);
      ClearAvailability(trips, once.state, tripId, caller, date) == once
    ensures date.At? && Key(tripId, caller, date.t) !in store
            ==> ClearAvailability(trips, store, tripId, caller, date).state == store
  {
    if date.At? {
      DeleteIdempotent(store, Key(tripId, caller, date.t));
    }
  }

  /** Setting and then clearing the same day leaves the other records as
      they were and no record for that day. */
  lemma SetThenClear(trips: TripStore, store: Store, tripId: TripId, caller: UserId,
                     day: int, status: string, now: int)
    requires tripId in trips && HasAccess(trips[tripId], caller)
    requires ParseStatus(status).Some?
    ensures
      var voted := SetAvailability(trips, store, tripId, caller, At(day), Some(status), now);
      var cleared := ClearAvailability(trips, voted.state, tripId, caller, At(day));
      cleared.state == Delete(store, Key(tripId, caller, day))
  {
  }
  /** What one member writes, every member reads: after a successful set the
      trip's listing holds the caller's new record for that date, and after
      a successful clear it holds none. */
  lemma VoteVisibleToMembers(trips: TripStore, store: Store, tripId: TripId, caller: UserId,
                             viewer: UserId, date: DateArg, status: Option<string>, now: int)
    requires tripId in trips && HasAccess(trips[tripId], viewer)
    ensures
      var voted := SetAvailability(trips, store, tripId, caller, date, status, now);
      voted.result.Ok? ==>
        var seen := GetAvailability(trips, voted.state, tripId, viewer);
        && seen.Ok?
        && Key(tripId, caller, date.t) in seen.value
        && seen.value[Key(tripId, caller, date.t)] == voted.result.value
    ensures
      var cleared := ClearAvailability(trips, store, tripId, caller, date);
      cleared.result.Ok? ==>
        var seen := GetAvailability(trips, cleared.state, tripId, viewer);
        seen.Ok? && Key(tripId, caller, date.t) !in seen.value
  {
  }
}
