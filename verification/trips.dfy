/** The trip routes of backend/routes/trips.js as state transformers over a
    store of trips keyed by id. The Trip schema (backend/models/Trip.js) is
    not part of this model; its fields are the ones the routes use, with
    `planText` defaulting to the empty string. */
module Trips {
  import opened Common
  import opened Calendar

  datatype Trip = Trip(
    name: string,
    destination: string,
    owner: UserId,
    members: seq<UserId>,
    start: int,
    end: int,
    planText: string)

  type TripStore = map<TripId, Trip>

  /** `members.some((m) => m.toString() === user)`. */
  function AnyMember(members: seq<UserId>, user: UserId): (r: bool)
    ensures r <==> user in members
  {
    |members| > 0 && (members[0] == user || AnyMember(members[1..], user))
  }

  /** Read access to a trip: the owner, or anyone in its member list. */
  function HasAccess(trip: Trip, user: UserId): (r: bool)
    ensures r <==> trip.owner == user || user in trip.members
  {
    trip.owner == user || AnyMember(trip.members, user)
  }

  /** The guard every trip-scoped handler runs first: a missing trip is 404,
      a caller without access is 403, otherwise the trip is returned. This is
      also the whole of `GET /trips/:id`. */
  function Authorize(trips: TripStore, id: TripId, caller: UserId): (r: Outcome<Trip>)
    ensures r == Fail(NotFound) <==> id !in trips
    ensures r == Fail(Forbidden) <==> id in trips && !HasAccess(trips[id], caller)
    ensures r.Ok? <==> id in trips && HasAccess(trips[id], caller)
    ensures r.Ok? ==> r.value == trips[id]
  {
    if id !in trips then Fail(NotFound)
    else if !HasAccess(trips[id], caller) then Fail(Forbidden)
    else Ok(trips[id])
  }

  /** `GET /trips`: the trips the caller owns or is a member of. */
  function ListTrips(trips: TripStore, caller: UserId): (r: set<TripId>)
    ensures forall id :: id in r <==> id in trips && HasAccess(trips[id], caller)
  {
    set id | id in trips && HasAccess(trips[id], caller)
  }

  predicate NoDuplicates(members: seq<UserId>) {
    forall i, j :: 0 <= i < j < |members| ==> members[i] != members[j]
  }

  /** What every stored trip satisfies: it ends after it starts, its owner is
      a member, and nobody is listed twice. */
  predicate WellFormed(trip: Trip) {
    trip.start < trip.end && trip.owner in trip.members && NoDuplicates(trip.members)
  }

  predicate AllWellFormed(trips: TripStore) {
    forall id :: id in trips ==> WellFormed(trips[id])
  }

  /** `POST /trips`. `newId` is the fresh id the store assigns. All four
      fields must be truthy and the end must come after the start; an
      unparseable date slips through the comparison (it is NaN) and fails
      when the document is saved. */
  function CreateTrip(trips: TripStore, newId: TripId, caller: UserId,
                      name: Option<string>, destination: Option<string>,
                      start: DateArg, end: DateArg): (r: Step<TripStore, Trip>)
    requires newId !in trips
    ensures !(Truthy(name) && Truthy(destination) && DateGiven(start) && DateGiven(end))
            ==> r == Step(Fail(BadRequest), trips)
    ensures start.At? && end.At? && end.t <= start.t ==> r == Step(Fail(BadRequest), trips)
    ensures Truthy(name) && Truthy(destination) && DateGiven(start) && DateGiven(end)
            && (start.Unparseable? || end.Unparseable?)
            ==> r == Step(Fail(ServerError), trips)
    ensures r.result.Ok? <==> Truthy(name) && Truthy(destination) && start.At? && end.At? && start.t < end.t
    ensures r.result.Fail? ==> r.state == trips
    ensures r.result.Ok? ==>
      && r.result.value == Trip(name.value, destination.value, caller, [caller], start.t, end.t, "")
      && r.state == trips[newId := r.result.value]
  {
    if !Truthy(name) || !Truthy(destination) || !DateGiven(start) || !DateGiven(end) then
      Step(Fail(BadRequest), trips)
    else if start.At? && end.At? && end.t <= start.t then
      Step(Fail(BadRequest), trips)
    else if start.Unparseable? || end.Unparseable? then
      Step(Fail(ServerError), trips)
    else
      var trip := Trip(name.value, destination.value, caller, [caller], start.t, end.t, "");
      Step(Ok(trip), trips[newId := trip])
  }

  /** The instant a date field holds after `if (d) trip.d = new Date(d)`:
      an absent or falsy field keeps `current`, a valid date replaces it.
      An unparseable one is an Invalid Date, which the document's cast
      refuses: the refusal is recorded and the field keeps `current`, so
      the comparison that follows still sees the stored date. */
  function DateAfterUpdate(arg: DateArg, current: int): (r: int)
    ensures arg.At? ==> r == arg.t
    ensures !arg.At? ==> r == current
  {
    match arg
    case At(t) => t
    case _ => current
  }

  /** `PUT /trips/:id`: owner only; truthy fields replace the stored ones;
      the merged dates must still have the end after the start, else 400
      and nothing is saved. A date the document refused to cast only fails
      the save, after that comparison. */
  function UpdateTrip(trips: TripStore, id: TripId, caller: UserId,
                      name: Option<string>, destination: Option<string>,
                      start: DateArg, end: DateArg): (r: Step<TripStore, Trip>)
    ensures id !in trips ==> r == Step(Fail(NotFound), trips)
    ensures id in trips && trips[id].owner != caller ==> r == Step(Fail(Forbidden), trips)
    ensures id in trips && trips[id].owner == caller
            && DateAfterUpdate(end, trips[id].end) <= DateAfterUpdate(start, trips[id].start)
            ==> r == Step(Fail(BadRequest), trips)
    ensures id in trips && trips[id].owner == caller
            && DateAfterUpdate(start, trips[id].start) < DateAfterUpdate(end, trips[id].end)
            && (start.Unparseable? || end.Unparseable?)
            ==> r == Step(Fail(ServerError), trips)
    ensures r.result.Ok? <==>
      && id in trips && trips[id].owner == caller
      && DateAfterUpdate(start, trips[id].start) < DateAfterUpdate(end, trips[id].end)
      && !start.Unparseable? && !end.Unparseable?
    ensures r.result.Fail? ==> r.state == trips
    ensures r.result.Ok? ==>
      var cur := trips[id];
      var t := r.result.value;
      && id in trips && cur.owner == caller
      && t.name == (if Truthy(name) then name.value else cur.name)
      && t.destination == (if Truthy(destination) then destination.value else cur.destination)
      && t.start == (if start.At? then start.t else cur.start)
      && t.end == (if end.At? then end.t else cur.end)
      && t.start < t.end
      && t.owner == cur.owner && t.members == cur.members && t.planText == cur.planText
      && r.state == trips[id := t]
  {
    if id !in trips then Step(Fail(NotFound), trips)
    else
      var cur := trips[id];
      if cur.owner != caller then Step(Fail(Forbidden), trips)
      else
        var newStart := DateAfterUpdate(start, cur.start);
        var newEnd := DateAfterUpdate(end, cur.end);
        if newEnd <= newStart then
          Step(Fail(BadRequest), trips)
        else if start.Unparseable? || end.Unparseable? then
          Step(Fail(ServerError), trips)
        else
          var t := cur.(
            name := if Truthy(name) then name.value else cur.name,
            destination := if Truthy(destination) then destination.value else cur.destination,
            start := newStart,
            end := newEnd);
          Step(Ok(t), trips[id := t])
  }

  /** An unparseable date is judged by the stored one: against a stored
      trip from 10 to 20, an unparseable start with an end of 5 is the
      ordering 400, not a failed save. */
  lemma UnparseableDateKeepsStored(trips: TripStore, id: TripId, caller: UserId)
    requires id in trips && trips[id].owner == caller
    requires trips[id].start == 10 && trips[id].end == 20
    ensures UpdateTrip(trips, id, caller, None, None, Unparseable, At(5)).result == Fail(BadRequest)
    ensures UpdateTrip(trips, id, caller, None, None, Unparseable, At(15)).result == Fail(ServerError)
  {
  }

  /** `DELETE /trips/:id`: owner only. */
  function DeleteTrip(trips: TripStore, id: TripId, caller: UserId): (r: Step<TripStore, ()>)
    ensures r.result.Ok? <==> id in trips && trips[id].owner == caller
    ensures id !in trips ==> r.result == Fail(NotFound)
    ensures id in trips && trips[id].owner != caller ==> r.result == Fail(Forbidden)
    ensures r.result.Fail? ==> r.state == trips
    ensures r.result.Ok? ==> r.state.Keys == trips.Keys - {id}
    ensures forall k :: k in r.state ==> k in trips && r.state[k] == trips[k]
  {
    if id !in trips then Step(Fail(NotFound), trips)
    else if trips[id].owner != caller then Step(Fail(Forbidden), trips)
    else Step(Ok(()), map k | k in trips && k != id :: trips[k])
  }

  /** `GET /trips/:id/plan`. */
  function GetPlan(trips: TripStore, id: TripId, caller: UserId): (r: Outcome<string>)
    ensures r.Ok? <==> Authorize(trips, id, caller).Ok?
    ensures r.Fail? ==> r.failure == Authorize(trips, id, caller).failure
    ensures r.Ok? ==> r.value == trips[id].planText
  {
    match Authorize(trips, id, caller)
    case Fail(f) => Fail(f)
    case Ok(trip) => Ok(trip.planText)
  }

  /** `PUT /trips/:id/plan`: any member stores the given text, the empty
      text when the field is absent; nothing else about the trip changes. */
  function SetPlan(trips: TripStore, id: TripId, caller: UserId, planText: Option<string>): (r: Step<TripStore, string>)
    ensures r.result.Ok? <==> Authorize(trips, id, caller).Ok?
    ensures r.result.Fail? ==> r.result.failure == Authorize(trips, id, caller).failure && r.state == trips
    ensures r.result.Ok? ==>
      && r.result.value == (if planText.Some? then planText.value else "")
      && r.state == trips[id := trips[id].(planText := r.result.value)]
  {
    match Authorize(trips, id, caller)
    case Fail(f) => Step(Fail(f), trips)
    case Ok(trip) =>
      var text := match planText case Some(p) => p case None => "";
      Step(Ok(text), trips[id := trip.(planText := text)])
  }

  /** `DELETE /trips/:id/plan`: any member empties the plan. */
  function ClearPlan(trips: TripStore, id: TripId, caller: UserId): (r: Step<TripStore, string>)
    ensures r.result.Ok? <==> Authorize(trips, id, caller).Ok?
    ensures r.result.Fail? ==> r.result.failure == Authorize(trips, id, caller).failure && r.state == trips
    ensures r.result.Ok? ==> r.result.value == "" && r.state == trips[id := trips[id].(planText := "")]
  {
    match Authorize(trips, id, caller)
    case Fail(f) => Step(Fail(f), trips)
    case Ok(trip) => Step(Ok(""), trips[id := trip.(planText := "")])
  }

  /** Clearing the plan is storing the empty text. */
  lemma ClearPlanIsEmptySet(trips: TripStore, id: TripId, caller: UserId)
    ensures ClearPlan(trips, id, caller) == SetPlan(trips, id, caller, Some(""))
    ensures ClearPlan(trips, id, caller) == SetPlan(trips, id, caller, None)
  {
  }

  /** `POST /trips/:id/members`: `users` maps e-mail addresses to account
      ids. The e-mail is checked first, then the trip, ownership, the
      account, and membership; a new member is appended at the end. */
  function AddMember(trips: TripStore, users: map<string, UserId>, id: TripId,
                     caller: UserId, email: Option<string>): (r: Step<TripStore, Trip>)
    ensures !Truthy(email) ==> r == Step(Fail(BadRequest), trips)
    ensures Truthy(email) && id !in trips ==> r == Step(Fail(NotFound), trips)
    ensures Truthy(email) && id in trips && trips[id].owner != caller ==> r == Step(Fail(Forbidden), trips)
    ensures Truthy(email) && id in trips && trips[id].owner == caller && email.value !in users
            ==> r == Step(Fail(NotFound), trips)
    ensures Truthy(email) && id in trips && trips[id].owner == caller && email.value in users
            && users[email.value] in trips[id].members
            ==> r == Step(Fail(BadRequest), trips)
    ensures r.result.Fail? ==> r.state == trips
    ensures r.result.Ok? <==>
      && Truthy(email) && id in trips && trips[id].owner == caller
      && email.value in users && users[email.value] !in trips[id].members
    ensures r.result.Ok? ==>
      && r.result.value == trips[id].(members := trips[id].members + [users[email.value]])
      && r.state == trips[id := r.result.value]
  {
    if !Truthy(email) then Step(Fail(BadRequest), trips)
    else if id !in trips then Step(Fail(NotFound), trips)
    else
      var trip := trips[id];
      if trip.owner != caller then Step(Fail(Forbidden), trips)
      else if email.value !in users then Step(Fail(NotFound), trips)
      else
        var newcomer := users[email.value];
        if AnyMember(trip.members, newcomer) then Step(Fail(BadRequest), trips)
        else
          var t := trip.(members := trip.members + [newcomer]);
          Step(Ok(t), trips[id := t])
  }

  /** `members.filter((m) => m.toString() !== x)`. */
  function Without(members: seq<UserId>, x: UserId): (r: seq<UserId>)
    ensures x !in r
    ensures forall y :: y != x ==> (y in r <==> y in members)
    ensures multiset(r) == multiset(members)[x := 0]
  {
    if |members| == 0 then []
    else
      assert members == [members[0]] + members[1..];
      if members[0] == x then Without(members[1..], x)
      else [members[0]] + Without(members[1..], x)
  }

  /** Filtering distributes over concatenation, so the remaining members
      keep their order. */
  lemma {:induction false} WithoutConcat(a: seq<UserId>, b: seq<UserId>, x: UserId)
    ensures Without(a + b, x) == Without(a, x) + Without(b, x)
  {
    if |a| > 0 {
      WithoutConcat(a[1..], b, x);
      assert (a + b)[1..] == a[1..] + b;
    } else {
      assert a + b == b;
    }
  }

  /** Removing someone who is not listed changes nothing. */
  lemma {:induction false} WithoutAbsent(members: seq<UserId>, x: UserId)
    requires x !in members
    ensures Without(members, x) == members
  {
    if |members| > 0 {
      WithoutAbsent(members[1..], x);
      assert members == [members[0]] + members[1..];
    }
  }

  /** `DELETE /trips/:id/members/:memberId`: owner only, never the owner. */
  function RemoveMember(trips: TripStore, id: TripId, caller: UserId, memberId: UserId): (r: Step<TripStore, Trip>)
    ensures id !in trips ==> r == Step(Fail(NotFound), trips)
    ensures id in trips && trips[id].owner != caller ==> r == Step(Fail(Forbidden), trips)
    ensures id in trips && trips[id].owner == caller && memberId == caller ==> r == Step(Fail(BadRequest), trips)
    ensures r.result.Fail? ==> r.state == trips
    ensures r.result.Ok? <==> id in trips && trips[id].owner == caller && memberId != caller
    ensures r.result.Ok? ==>
      && r.result.value == trips[id].(members := Without(trips[id].members, memberId))
      && r.state == trips[id := r.result.value]
  {
    if id !in trips then Step(Fail(NotFound), trips)
    else
      var trip := trips[id];
      if trip.owner != caller then Step(Fail(Forbidden), trips)
      else if memberId == trip.owner then Step(Fail(BadRequest), trips)
      else
        var t := trip.(members := Without(trip.members, memberId));
        Step(Ok(t), trips[id := t])
  }

  lemma RemoveNonMemberIsNoOp(trips: TripStore, id: TripId, caller: UserId, memberId: UserId)
    requires id in trips && trips[id].owner == caller && memberId != caller
    requires memberId !in trips[id].members
    ensures RemoveMember(trips, id, caller, memberId).state == trips
  {
    WithoutAbsent(trips[id].members, memberId);
    assert trips[id := trips[id]] == trips;
  }

  lemma {:induction false} WithoutKeepsDistinct(members: seq<UserId>, x: UserId)
    requires NoDuplicates(members)
    ensures NoDuplicates(Without(members, x))
  {
    if |members| > 0 {
      WithoutKeepsDistinct(members[1..], x);
      if members[0] != x {
        var rest := Without(members[1..], x);
        assert members[0] !in members[1..];
        assert members[0] !in rest;
        var r := [members[0]] + rest;
        forall i, j | 0 <= i < j < |r| ensures r[i] != r[j] {
          if i == 0 {
            assert r[j] in rest;
          } else {
            assert r[i] == rest[i - 1] && r[j] == rest[j - 1];
          }
        }
      }
    }
  }

  /** The trip listing follows membership: a created trip is listed for its
      creator, adding a member lists the trip for them, removing one drops
      it from theirs, and nobody else's listing moves. */
  lemma CreatedTripIsListed(trips: TripStore, newId: TripId, caller: UserId,
                            name: Option<string>, destination: Option<string>,
                            start: DateArg, end: DateArg)
    requires newId !in trips
    ensures
      var r := CreateTrip(trips, newId, caller, name, destination, start, end);
      r.result.Ok? ==> ListTrips(r.state, caller) == ListTrips(trips, caller) + {newId}
  {
  }

  lemma AddedMemberSeesTrip(trips: TripStore, users: map<string, UserId>, id: TripId,
                            caller: UserId, email: Option<string>)
    ensures
      var r := AddMember(trips, users, id, caller, email);
      r.result.Ok? ==>
        && ListTrips(r.state, users[email.value]) == ListTrips(trips, users[email.value]) + {id}
        && (forall u :: u != users[email.value] ==> ListTrips(r.state, u) == ListTrips(trips, u))
  {
  }

  lemma RemovedMemberLosesTrip(trips: TripStore, id: TripId, caller: UserId, memberId: UserId)
    ensures
      var r := RemoveMember(trips, id, caller, memberId);
      r.result.Ok? ==>
        && ListTrips(r.state, memberId) == ListTrips(trips, memberId) - {id}
        && (forall u :: u != memberId ==> ListTrips(r.state, u) == ListTrips(trips, u))
  {
  }

  /** Every handler that changes trips keeps every trip well formed. */
  lemma CreatePreservesWellFormed(trips: TripStore, newId: TripId, caller: UserId,
                                  name: Option<string>, destination: Option<string>,
                                  start: DateArg, end: DateArg)
    requires newId !in trips && AllWellFormed(trips)
    ensures AllWellFormed(CreateTrip(trips, newId, caller, name, destination, start, end).state)
  {
  }

  lemma UpdatePreservesWellFormed(trips: TripStore, id: TripId, caller: UserId,
                                  name: Option<string>, destination: Option<string>,
                                  start: DateArg, end: DateArg)
    requires AllWellFormed(trips)
    ensures AllWellFormed(UpdateTrip(trips, id, caller, name, destination, start, end).state)
  {
  }

  lemma AddMemberPreservesWellFormed(trips: TripStore, users: map<string, UserId>, id: TripId,
                                     caller: UserId, email: Option<string>)
    requires AllWellFormed(trips)
    ensures AllWellFormed(AddMember(trips, users, id, caller, email).state)
  {
    var r := AddMember(trips, users, id, caller, email);
    if r.result.Ok? {
      var m := trips[id].members;
      var n := users[email.value];
      var ms := m + [n];
      forall i, j | 0 <= i < j < |ms| ensures ms[i] != ms[j] {
        if j == |m| {
          assert ms[i] in m;
        }
      }
    }
  }

  lemma RemoveMemberPreservesWellFormed(trips: TripStore, id: TripId, caller: UserId, memberId: UserId)
    requires AllWellFormed(trips)
    ensures AllWellFormed(RemoveMember(trips, id, caller, memberId).state)
  {
    var r := RemoveMember(trips, id, caller, memberId);
    if r.result.Ok? {
      WithoutKeepsDistinct(trips[id].members, memberId);
    }
  }

  lemma PlanPreservesWellFormed(trips: TripStore, id: TripId, caller: UserId, planText: Option<string>)
    requires AllWellFormed(trips)
    ensures AllWellFormed(SetPlan(trips, id, caller, planText).state)
    ensures AllWellFormed(ClearPlan(trips, id, caller).state)
  {
  }

  /** The last day the itinerary prompt covers: thirteen days after the
      start, or the trip's end when that comes sooner. */
  function RecommendationEnd(trip: Trip): (r: int)
    ensures r <= trip.end && r <= trip.start + 13 * MsPerDay
    ensures r == trip.end || r == trip.start + 13 * MsPerDay
  {
    var maxEnd := trip.start + 13 * MsPerDay;
    if trip.end < maxEnd then trip.end else maxEnd
  }

  /** The prompt's window spans at most fourteen calendar days. */
  lemma RecommendationWindowAtMostFourteenDays(trip: Trip)
    requires WellFormed(trip)
    ensures DayOf(trip.start) <= DayOf(RecommendationEnd(trip)) <= DayOf(trip.start) + 13
  {
    DayOfShift(trip.start, 13);
  }

  /** The answer of the AI service, which is a foreign call: either an HTTP
      failure or a reply whose message content may be missing. */
  datatype AiReply = AiFailed | AiContent(content: Option<string>)

  /** `POST /trips/:id/recommendations`: refuses without an API key before
      touching the store, then runs the access guard; a missing or empty
      reply becomes a fixed placeholder. */
  function Recommend(trips: TripStore, id: TripId, caller: UserId, keyConfigured: bool, reply: AiReply): (r: Outcome<string>)
    ensures !keyConfigured ==> r == Fail(ServerError)
    ensures keyConfigured && Authorize(trips, id, caller).Fail? ==> r == Fail(Authorize(trips, id, caller).failure)
    ensures r.Ok? <==> keyConfigured && Authorize(trips, id, caller).Ok? && reply.AiContent?
    ensures r.Ok? ==> r.value != ""
    ensures keyConfigured && Authorize(trips, id, caller).Ok? && reply.AiFailed? ==> r == Fail(ServerError)
    ensures r.Ok? && Truthy(reply.content) ==> r.value == reply.content.value
    ensures r.Ok? && !Truthy(reply.content) ==> r.value == "No ideas generated."
  {
    if !keyConfigured then Fail(ServerError)
    else match Authorize(trips, id, caller)
      case Fail(f) => Fail(f)
      case Ok(_) =>
        match reply
        case AiFailed => Fail(ServerError)
        case AiContent(c) => Ok(if Truthy(c) then c.value else "No ideas generated.")
  }
}
