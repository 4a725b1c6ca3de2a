/** The pin routes of backend/routes/pins.js as state transformers over
    the pin collection, a sequence of pins in insertion order whose ids are
    unique. Listing and creating are scoped to a trip and guarded like the
    other trip routes; updating and deleting are reserved to the pin's
    creator. */
module Pins {
  import opened Common
  import opened Calendar
  import opened Text
  import opened Sorting
  import opened Trips
  import opened PinModel

  type PinStore = seq<Pin>

  predicate UniqueIds(pins: PinStore) {
    forall i, j :: 0 <= i < j < |pins| ==> pins[i].id != pins[j].id
  }

  predicate FreshId(pins: PinStore, id: PinId) {
    forall i :: 0 <= i < |pins| ==> pins[i].id != id
  }

  predicate AllValid(pins: PinStore) {
    forall i :: 0 <= i < |pins| ==> ValidPin(pins[i])
  }

  /** `Pin.findById`: the position of the pin with that id. */
  function FindPin(pins: PinStore, id: PinId): (r: Option<nat>)
    ensures r.None? <==> FreshId(pins, id)
    ensures r.Some? ==> r.value < |pins| && pins[r.value].id == id
    ensures r.Some? && UniqueIds(pins) ==> forall i :: 0 <= i < |pins| && i != r.value ==> pins[i].id != id
  {
    if |pins| == 0 then None
    else if pins[0].id == id then Some(0)
    else match FindPin(pins[1..], id)
      case None => None
      case Some(i) => Some(i + 1)
  }

  // ------------------------------------------------------------ listing

  function CreatedAt(p: Pin): int {
    p.createdAt
  }

  /** The list query: the trip's pins and, when a day window starting at
      `window` is given, only those whose day lies inside it. */
  predicate InQuery(p: Pin, trip: TripId, window: Option<int>) {
    p.trip == trip && (window.Some? ==> p.day.Some? && window.value <= p.day.value < window.value + MsPerDay)
  }

  function Select(pins: PinStore, trip: TripId, window: Option<int>): (r: PinStore)
    ensures |r| <= |pins|
    ensures forall p :: p in r <==> p in pins && InQuery(p, trip, window)
  {
    if |pins| == 0 then []
    else
      var rest := Select(pins[1..], trip, window);
      assert forall p :: p in pins <==> p == pins[0] || p in pins[1..];
      if InQuery(pins[0], trip, window) then [pins[0]] + rest else rest
  }

  /** The window of a date query selects exactly the pins on that date's
      day. */
  lemma WindowSelectsDay(pins: PinStore, trip: TripId, t: int)
    ensures forall p :: p in Select(pins, trip, Some(Midnight(t)))
                    <==> p in pins && p.trip == trip && p.day.Some? && DayOf(p.day.value) == DayOf(t)
  {
    forall p | p in pins && p.day.Some? {
      InDayWindow(t, p.day.value);
    }
  }

  lemma WindowSelectsDateDay(pins: PinStore, trip: TripId, date: DateArg)
    ensures date.At? ==>
      forall p :: (p in Select(pins, trip, Some(Midnight(date.t)))
                   <==> p in pins && p.trip == trip && p.day.Some? && DayOf(p.day.value) == DayOf(date.t))
  {
    if date.At? {
      WindowSelectsDay(pins, trip, date.t);
    }
  }

  /** The day window of a `date` query parameter: none without a date, the
      UTC day of the date otherwise, and `None` when the date does not
      parse (the cast of the query fails). */
  function QueryWindow(date: DateArg): (r: Option<Option<int>>)
    ensures r.None? <==> date.Unparseable?
    ensures r == Some(None) <==> !DateGiven(date)
    ensures date.At? ==> r == Some(Some(Midnight(date.t)))
  {
    match date
    case Omitted => Some(None)
    case Blank => Some(None)
    case Unparseable => None
    case At(t) => Some(Some(Midnight(t)))
  }

  /** `GET /trips/:id/pins?date=`: after the trip guard, the trip's pins,
      restricted to the date's day when a date is given, newest first. */
  function ListPins(trips: TripStore, pins: PinStore, tripId: TripId, caller: UserId, date: DateArg): (r: Outcome<PinStore>)
    ensures tripId !in trips ==> r == Fail(NotFound)
    ensures tripId in trips && !HasAccess(trips[tripId], caller) ==> r == Fail(Forbidden)
    ensures tripId in trips && HasAccess(trips[tripId], caller) && date.Unparseable? ==> r == Fail(ServerError)
    ensures r.Ok? <==> tripId in trips && HasAccess(trips[tripId], caller) && !date.Unparseable?
    ensures r.Ok? ==> forall p :: p in r.value <==>
      && p in pins && p.trip == tripId
      && (date.At? ==> p.day.Some? && DayOf(p.day.value) == DayOf(date.t))
    ensures r.Ok? ==> Descending(r.value, CreatedAt)
  {
    match Authorize(trips, tripId, caller)
    case Fail(f) => Fail(f)
    case Ok(_) =>
      match QueryWindow(date)
      case None => Fail(ServerError)
      case Some(window) =>
        var selected := Select(pins, tripId, window);
        WindowSelectsDateDay(pins, tripId, date);
        var sorted := SortDesc(selected, CreatedAt);
        assert forall p :: p in sorted <==> p in multiset(selected);
        Ok(sorted)
  }

  /** Pins created at the same instant are listed in the order they were
      stored. */
  lemma ListKeepsStoreOrderOnTies(trips: TripStore, pins: PinStore, tripId: TripId, caller: UserId,
                                  date: DateArg, k: int)
    requires ListPins(trips, pins, tripId, caller, date).Ok?
    ensures WithKey(ListPins(trips, pins, tripId, caller, date).value, CreatedAt, k)
         == WithKey(Select(pins, tripId, QueryWindow(date).value), CreatedAt, k)
  {
    SortDescStable(Select(pins, tripId, QueryWindow(date).value), CreatedAt, k);
  }

  // ----------------------------------------------------------- creating

  lemma MidnightKeepsDay(d: DateArg)
    ensures d.At? ==> DayOf(Midnight(d.t)) == DayOf(d.t)
  {
    if d.At? {
      SameMidnightIffSameDay(d.t, Midnight(d.t));
    }
  }

  /** The body of a create or update request. */
  datatype PinInput = PinInput(
    lat: NumArg,
    lng: NumArg,
    title: Option<string>,
    category: Option<string>,
    notes: Option<string>,
    day: DateArg)

  /** What the schema accepts of a create request that passed the
      presence check: numeric coordinates, a title that is not all
      whitespace, a known category if one is given, a parseable day. */
  predicate CreateAccepted(req: PinInput) {
    && req.lat.Number? && req.lng.Number?
    && req.title.Some? && !AllSpace(req.title.value)
    && (Truthy(req.category) ==> IsCategoryName(req.category.value))
    && !req.day.Unparseable?
  }

  /** `new Pin({...})` with the route's defaults, or `None` when `save()`
      would fail validation. */
  function NewPin(id: PinId, trip: TripId, caller: UserId, req: PinInput, now: int): (r: Option<Pin>)
    requires NumGiven(req.lat) && NumGiven(req.lng) && Truthy(req.title)
    ensures r.Some? <==> CreateAccepted(req)
    ensures r.Some? ==>
      && ValidPin(r.value)
      && r.value.id == id && r.value.trip == trip && r.value.creator == caller && r.value.createdAt == now
      && r.value.title == Trim(req.title.value)
      && (Truthy(req.category) ==> CategoryName(r.value.category) == req.category.value)
      && (!Truthy(req.category) ==> r.value.category == Other)
      && r.value.lat == req.lat.v && r.value.lng == req.lng.v
      && (Truthy(req.notes) ==> r.value.notes == Trim(req.notes.value))
      && (!Truthy(req.notes) ==> r.value.notes == "")
      && (!DateGiven(req.day) ==> r.value.day == None)
      && (req.day.At? ==> r.value.day.Some? && DayOf(r.value.day.value) == DayOf(req.day.t))
  {
    var lat := CastNumber(req.lat);
    var lng := CastNumber(req.lng);
    var title := CastTitle(req.title.value);
    var category := CastCategory(req.category);
    var day := CastDay(req.day);
    var notes := if Truthy(req.notes) then Trim(req.notes.value) else "";
    MidnightKeepsDay(req.day);
    if lat.None? || lng.None? || title.None? || category.None? || day.None? then None
    else Some(Pin(id, trip, caller, day.value, lat.value, lng.value, title.value, category.value, notes, now))
  }

  /** `POST /trips/:id/pins`: coordinates and title must be truthy (a zero
      coordinate is refused) before the trip is looked up; then the trip
      guard; then the new pin is appended, owned by the caller. */
  function CreatePin(trips: TripStore, pins: PinStore, tripId: TripId, caller: UserId,
                     newId: PinId, req: PinInput, now: int): (r: Step<PinStore, Pin>)
    requires FreshId(pins, newId)
    ensures !NumGiven(req.lat) || !NumGiven(req.lng) || !Truthy(req.title) ==> r == Step(Fail(BadRequest), pins)
    ensures NumGiven(req.lat) && NumGiven(req.lng) && Truthy(req.title) ==>
      && (tripId !in trips ==> r == Step(Fail(NotFound), pins))
      && (tripId in trips && !HasAccess(trips[tripId], caller) ==> r == Step(Fail(Forbidden), pins))
      && (tripId in trips && HasAccess(trips[tripId], caller) && !CreateAccepted(req)
          ==> r == Step(Fail(ServerError), pins))
    ensures r.result.Fail? ==> r.state == pins
    ensures r.result.Ok? <==>
      && NumGiven(req.lat) && NumGiven(req.lng) && Truthy(req.title)
      && tripId in trips && HasAccess(trips[tripId], caller)
      && CreateAccepted(req)
    ensures r.result.Ok? ==>
      && r.state == pins + [r.result.value]
      && r.result.value.id == newId && r.result.value.trip == tripId
      && r.result.value.creator == caller && r.result.value.createdAt == now
      && ValidPin(r.result.value)
      && NewPin(newId, tripId, caller, req, now) == Some(r.result.value)
  {
    if !NumGiven(req.lat) || !NumGiven(req.lng) || !Truthy(req.title) then Step(Fail(BadRequest), pins)
    else match Authorize(trips, tripId, caller)
      case Fail(f) => Step(Fail(f), pins)
      case Ok(_) =>
        match NewPin(newId, tripId, caller, req, now)
        case None => Step(Fail(ServerError), pins)
        case Some(p) => Step(Ok(p), pins + [p])
  }

  /** Appending a valid pin with a fresh id keeps the store's invariant. */
  lemma AppendKeepsInvariant(pins: PinStore, p: Pin)
    requires UniqueIds(pins) && AllValid(pins)
    requires FreshId(pins, p.id) && ValidPin(p)
    ensures UniqueIds(pins + [p]) && AllValid(pins + [p])
  {
    var after := pins + [p];
    assert forall i :: 0 <= i < |pins| ==> after[i] == pins[i];
    assert after[|pins|] == p;
  }

  lemma CreatePreservesInvariant(trips: TripStore, pins: PinStore, tripId: TripId, caller: UserId,
                                 newId: PinId, req: PinInput, now: int)
    requires FreshId(pins, newId)
    requires UniqueIds(pins) && AllValid(pins)
    ensures var r := CreatePin(trips, pins, tripId, caller, newId, req, now);
            UniqueIds(r.state) && AllValid(r.state)
  {
    var r := CreatePin(trips, pins, tripId, caller, newId, req, now);
    if r.result.Ok? {
      AppendKeepsInvariant(pins, r.result.value);
    }
  }

  /** A pin created for day `x` is listed for date `t` exactly when `t` falls
      on the same UTC day, and is listed when no date is asked for. */
  lemma CreatedPinListedOnItsDay(trips: TripStore, pins: PinStore, tripId: TripId, caller: UserId,
                                 newId: PinId, req: PinInput, now: int, t: int)
    requires FreshId(pins, newId)
    requires CreatePin(trips, pins, tripId, caller, newId, req, now).result.Ok?
    requires req.day.At?
    ensures
      var r := CreatePin(trips, pins, tripId, caller, newId, req, now);
      && r.result.value in ListPins(trips, r.state, tripId, caller, Omitted).value
      && (r.result.value in ListPins(trips, r.state, tripId, caller, At(t)).value <==> DayOf(req.day.t) == DayOf(t))
  {
    var r := CreatePin(trips, pins, tripId, caller, newId, req, now);
    var p := r.result.value;
    assert p in r.state by {
      assert r.state == pins + [p];
      assert r.state[|pins|] == p;
    }
    assert p.trip == tripId;
    assert p.day.Some? && DayOf(p.day.value) == DayOf(req.day.t);
    var all := ListPins(trips, r.state, tripId, caller, Omitted);
    var onDay := ListPins(trips, r.state, tripId, caller, At(t));
    assert all.Ok? && onDay.Ok?;
  }

  // ---------------------------------------------------- updating, deleting

  /** What `save()` accepts after the merge: a given title that is not all
      whitespace, a given category from the enum, given coordinates that
      are numbers, a parseable day. */
  predicate UpdateAccepted(req: PinInput) {
    && (Truthy(req.title) ==> !AllSpace(req.title.value))
    && (Truthy(req.category) ==> IsCategoryName(req.category.value))
    && (NumGiven(req.lat) ==> req.lat.Number?)
    && (NumGiven(req.lng) ==> req.lng.Number?)
    && !req.day.Unparseable?
  }

  /** The merge of `PUT /pins/:pinId`: title, category and coordinates are
      replaced only by truthy values, notes by any defined value, and the
      day is left alone when absent, cleared when falsy and set to the
      day's midnight otherwise. The pin's identity, trip, creator and
      creation time never change. */
  function Merge(p: Pin, req: PinInput): (r: Option<Pin>)
    ensures r.Some? <==> UpdateAccepted(req)
    ensures r.Some? ==>
      && r.value.id == p.id && r.value.trip == p.trip
      && r.value.creator == p.creator && r.value.createdAt == p.createdAt
      && r.value.title == (if Truthy(req.title) then Trim(req.title.value) else p.title)
      && (Truthy(req.category) ==> CategoryName(r.value.category) == req.category.value)
      && (!Truthy(req.category) ==> r.value.category == p.category)
      && r.value.notes == (if req.notes.Some? then Trim(req.notes.value) else p.notes)
      && r.value.lat == (if NumGiven(req.lat) then req.lat.v else p.lat)
      && r.value.lng == (if NumGiven(req.lng) then req.lng.v else p.lng)
      && (req.day.Omitted? ==> r.value.day == p.day)
      && (req.day.Blank? ==> r.value.day == None)
      && (req.day.At? ==> r.value.day.Some? && DayOf(r.value.day.value) == DayOf(req.day.t))
    ensures r.Some? && ValidPin(p) ==> ValidPin(r.value)
  {
    var title := if Truthy(req.title) then CastTitle(req.title.value) else Some(p.title);
    var category := if Truthy(req.category) then ParseCategory(req.category.value) else Some(p.category);
    var notes := if req.notes.Some? then Trim(req.notes.value) else p.notes;
    var lat := if NumGiven(req.lat) then CastNumber(req.lat) else Some(p.lat);
    var lng := if NumGiven(req.lng) then CastNumber(req.lng) else Some(p.lng);
    var day := if req.day.Omitted? then Some(p.day) else CastDay(req.day);
    MidnightKeepsDay(req.day);
    if title.None? || category.None? || lat.None? || lng.None? || day.None? then None
    else Some(p.(title := title.value, category := category.value, notes := notes,
                 lat := lat.value, lng := lng.value, day := day.value))
  }

  /** `PUT /pins/:pinId`: 404 for an unknown pin, 403 for anyone but its
      creator, otherwise the merged pin replaces the old one in place. Trip
      membership is not consulted. */
  function UpdatePin(pins: PinStore, pinId: PinId, caller: UserId, req: PinInput): (r: Step<PinStore, Pin>)
    ensures FreshId(pins, pinId) ==> r == Step(Fail(NotFound), pins)
    ensures r.result.Fail? ==> r.state == pins
    ensures r.result.Ok? ==> UpdateAccepted(req)
    ensures r.result.Ok? ==>
      exists i :: 0 <= i < |pins| && pins[i].id == pinId && pins[i].creator == caller
                  && Merge(pins[i], req) == Some(r.result.value) && r.state == pins[i := r.result.value]
    ensures UniqueIds(pins) ==> forall i :: 0 <= i < |pins| && pins[i].id == pinId ==>
      && (pins[i].creator != caller ==> r == Step(Fail(Forbidden), pins))
      && (pins[i].creator == caller && UpdateAccepted(req) ==> r.result.Ok?)
      && (pins[i].creator == caller && !UpdateAccepted(req) ==> r == Step(Fail(ServerError), pins))
  {
    match FindPin(pins, pinId)
    case None => Step(Fail(NotFound), pins)
    case Some(i) =>
      if pins[i].creator != caller then Step(Fail(Forbidden), pins)
      else match Merge(pins[i], req)
        case None => Step(Fail(ServerError), pins)
        case Some(p) => Step(Ok(p), pins[i := p])
  }

  /** `DELETE /pins/:pinId`: 404 for an unknown pin, 403 for anyone but its
      creator, otherwise the pin is removed and the others keep their
      order. */
  function DeletePin(pins: PinStore, pinId: PinId, caller: UserId): (r: Step<PinStore, ()>)
    ensures FreshId(pins, pinId) ==> r == Step(Fail(NotFound), pins)
    ensures r.result.Fail? ==> r.state == pins
    ensures r.result.Ok? ==>
      exists i :: 0 <= i < |pins| && pins[i].id == pinId && pins[i].creator == caller
                  && r.state == pins[..i] + pins[i + 1..]
    ensures UniqueIds(pins) ==> forall i :: 0 <= i < |pins| && pins[i].id == pinId ==>
      && (r.result.Ok? <==> pins[i].creator == caller)
      && (pins[i].creator != caller ==> r == Step(Fail(Forbidden), pins))
  {
    match FindPin(pins, pinId)
    case None => Step(Fail(NotFound), pins)
    case Some(i) =>
      if pins[i].creator != caller then Step(Fail(Forbidden), pins)
      else Step(Ok(()), pins[..i] + pins[i + 1..])
  }

  /** Replacing a pin by one with the same id keeps the ids unique, and
      keeps the store valid when the new pin is. */
  lemma ReplaceKeepsInvariant(pins: PinStore, i: nat, p: Pin)
    requires i < |pins| && p.id == pins[i].id
    requires UniqueIds(pins)
    ensures UniqueIds(pins[i := p])
    ensures AllValid(pins) && ValidPin(p) ==> AllValid(pins[i := p])
  {
    var after := pins[i := p];
    forall a, b | 0 <= a < b < |after| ensures after[a].id != after[b].id {
      assert after[a].id == pins[a].id && after[b].id == pins[b].id;
    }
  }

  /** An update touches only the one pin: every other pin is where it was,
      unchanged, and ids stay unique and pins valid. */
  lemma UpdateKeepsOthers(pins: PinStore, pinId: PinId, caller: UserId, req: PinInput)
    requires UniqueIds(pins)
    ensures
      var r := UpdatePin(pins, pinId, caller, req);
      && |r.state| == |pins|
      && (forall i :: 0 <= i < |pins| && pins[i].id != pinId ==> r.state[i] == pins[i])
      && (forall i :: 0 <= i < |pins| ==> r.state[i].id == pins[i].id)
      && UniqueIds(r.state)
      && (AllValid(pins) ==> AllValid(r.state))
  {
    var r := UpdatePin(pins, pinId, caller, req);
    if r.result.Ok? {
      var i :| 0 <= i < |pins| && pins[i].id == pinId && pins[i].creator == caller
               && Merge(pins[i], req) == Some(r.result.value) && r.state == pins[i := r.result.value];
      ReplaceKeepsInvariant(pins, i, r.result.value);
    }
  }

  /** Sending the same update twice leaves the same pins as sending it
      once. */
  lemma UpdateIdempotent(pins: PinStore, pinId: PinId, caller: UserId, req: PinInput)
    requires UniqueIds(pins)
    ensures
      var once := UpdatePin(pins, pinId, caller, req);
      UpdatePin(once.state, pinId, caller, req).state == once.state
  {
    var once := UpdatePin(pins, pinId, caller, req);
    if once.result.Ok? {
      var i :| 0 <= i < |pins| && pins[i].id == pinId && pins[i].creator == caller
               && Merge(pins[i], req) == Some(once.result.value) && once.state == pins[i := once.result.value];
      var p := once.result.value;
      ReplaceKeepsInvariant(pins, i, p);
      assert once.state[i] == p;
      var j := FindPin(once.state, pinId).value;
      assert j == i;
      assert Merge(p, req) == Some(p);
    }
  }

  /** An empty request body leaves the pin as it was. */
  lemma EmptyUpdateKeepsPin(p: Pin)
    ensures Merge(p, PinInput(NoNumber, NoNumber, None, None, None, Omitted)) == Some(p)
  {
  }

  /** A successful delete removes the pin and nothing else. */
  lemma DeleteRemovesOnlyThePin(pins: PinStore, pinId: PinId, caller: UserId)
    requires UniqueIds(pins)
    requires DeletePin(pins, pinId, caller).result.Ok?
    ensures
      var after := DeletePin(pins, pinId, caller).state;
      && FreshId(after, pinId)
      && |after| == |pins| - 1
      && (forall p :: p in pins && p.id != pinId <==> p in after)
      && UniqueIds(after)
  {
    var after := DeletePin(pins, pinId, caller).state;
    var i :| 0 <= i < |pins| && pins[i].id == pinId && pins[i].creator == caller && after == pins[..i] + pins[i + 1..];
    RemoveAtKeepsOthers(pins, i);
  }

  lemma RemoveAtKeepsOthers(pins: PinStore, i: nat)
    requires i < |pins| && UniqueIds(pins)
    ensures
      var after := pins[..i] + pins[i + 1..];
      && FreshId(after, pins[i].id)
      && |after| == |pins| - 1
      && (forall p :: p in pins && p.id != pins[i].id <==> p in after)
      && UniqueIds(after)
  {
    var after := pins[..i] + pins[i + 1..];
    assert forall k :: 0 <= k < |after| ==> after[k] == pins[if k < i then k else k + 1];
    forall p | p in pins && p.id != pins[i].id ensures p in after {
      var k :| 0 <= k < |pins| && pins[k] == p;
      if k < i { assert after[k] == p; } else { assert after[k - 1] == p; }
    }
  }
}
