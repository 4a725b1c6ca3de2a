/** The pure rules of the map tab (frontend/.../components/Map/MapTab.jsx):
    marker colours and category labels, how the local pin list follows the
    pin routes, the place-search guard, and the notes composed from a
    place. Drawing the map and calling the places service are left out. */
module MapTab {
  import opened Common
  import opened Text
  import opened Sorting
  import opened PinModel
  import opened Trips
  import opened Pins
  import opened FlightTab

  // ----------------------------------------------------- colours and labels

  /** `categoryColor`. */
  const CategoryColors: map<string, string> := map[
    "restaurant" := "#ef4444",
    "attraction" := "#3b82f6",
    "hotel" := "#8b5cf6",
    "activity" := "#10b981",
    "other" := "#6b7280"]

  /** The fill of `getMarkerIcon(category)`: the category's colour, and the
      colour of "other" for anything else. */
  function MarkerColor(category: string): (r: string)
    ensures r in CategoryColors.Values
    ensures category in CategoryColors ==> r == CategoryColors[category]
    ensures category !in CategoryColors ==> r == CategoryColors["other"]
  {
    if category in CategoryColors then CategoryColors[category] else CategoryColors["other"]
  }

  /** The labels of `getCategoryLabel`. */
  const CategoryLabels: map<string, string> := map[
    "restaurant" := "\U{1F37D}\U{FE0F} Restaurant",
    "attraction" := "\U{1F3AD} Attraction",
    "hotel" := "\U{1F3E8} Hotel",
    "activity" := "\U{26A1} Activity",
    "other" := "\U{1F4CD} Other"]

  function CategoryLabel(category: string): (r: string)
    ensures r in CategoryLabels.Values
    ensures category in CategoryLabels ==> r == CategoryLabels[category]
    ensures category !in CategoryLabels ==> r == CategoryLabels["other"]
  {
    if category in CategoryLabels then CategoryLabels[category] else CategoryLabels["other"]
  }

  /** Every stored category has its own colour and its own label, and the
      tables cover exactly the schema's categories. */
  lemma CategoriesAreDistinguished(a: Category, b: Category)
    ensures CategoryName(a) in CategoryColors && CategoryName(a) in CategoryLabels
    ensures a != b ==> MarkerColor(CategoryName(a)) != MarkerColor(CategoryName(b))
    ensures a != b ==> CategoryLabel(CategoryName(a)) != CategoryLabel(CategoryName(b))
    ensures forall s :: s in CategoryColors <==> IsCategoryName(s)
    ensures forall s :: s in CategoryLabels <==> IsCategoryName(s)
  {
  }

  /** A name outside the enum is drawn and labelled like "other". */
  lemma UnknownCategoryLooksLikeOther(s: string)
    requires !IsCategoryName(s)
    ensures MarkerColor(s) == MarkerColor(CategoryName(Other))
    ensures CategoryLabel(s) == CategoryLabel(CategoryName(Other))
  {
  }

  // ------------------------------------------------------- the local list

  /** `setPins((prev) => [data.pin, ...prev])`. */
  function PrependPin(pins: seq<Pin>, p: Pin): (r: seq<Pin>)
    ensures |r| == |pins| + 1 && r[0] == p && r[1..] == pins
  {
    [p] + pins
  }

  /** `prev.map((p) => (p._id === id ? updated : p))`. */
  function ReplacePin(pins: seq<Pin>, id: PinId, updated: Pin): (r: seq<Pin>)
    ensures |r| == |pins|
    ensures forall i :: 0 <= i < |pins| ==> r[i] == (if pins[i].id == id then updated else pins[i])
  {
    if |pins| == 0 then []
    else [if pins[0].id == id then updated else pins[0]] + ReplacePin(pins[1..], id, updated)
  }

  /** `prev.filter((p) => p._id !== id)`. */
  function RemovePins(pins: seq<Pin>, id: PinId): (r: seq<Pin>)
    ensures |r| <= |pins|
    ensures forall k :: 0 <= k < |r| ==> r[k].id != id
  {
    if |pins| == 0 then []
    else if pins[0].id != id then [pins[0]] + RemovePins(pins[1..], id)
    else RemovePins(pins[1..], id)
  }

  /** Exactly the pins with another id remain. */
  lemma {:induction false} RemovePinsMembers(pins: seq<Pin>, id: PinId)
    ensures forall p :: p in RemovePins(pins, id) <==> p in pins && p.id != id
  {
    if |pins| > 0 {
      RemovePinsMembers(pins[1..], id);
      assert forall p :: p in pins <==> p == pins[0] || p in pins[1..];
    }
  }

  lemma {:induction false} RemovePinsConcat(a: seq<Pin>, b: seq<Pin>, id: PinId)
    ensures RemovePins(a + b, id) == RemovePins(a, id) + RemovePins(b, id)
  {
    if |a| == 0 {
      assert a + b == b;
    } else {
      var ab := a + b;
      assert ab[0] == a[0];
      assert ab[1..] == a[1..] + b;
      RemovePinsConcat(a[1..], b, id);
      var keep := if a[0].id != id then [a[0]] else [];
      assert RemovePins(ab, id) == keep + RemovePins(a[1..] + b, id);
      assert RemovePins(a, id) == keep + RemovePins(a[1..], id);
    }
  }

  lemma {:induction false} RemovePinsAbsent(pins: seq<Pin>, id: PinId)
    requires FreshId(pins, id)
    ensures RemovePins(pins, id) == pins
  {
    if |pins| > 0 {
      RemovePinsAbsent(pins[1..], id);
      assert pins == [pins[0]] + pins[1..];
    }
  }

  /** The list kept by the page after an update is the collection the
      route leaves behind, when the page held the whole collection. */
  lemma ReplaceFollowsUpdate(pins: PinStore, pinId: PinId, caller: UserId, req: PinInput)
    requires UniqueIds(pins)
    requires UpdatePin(pins, pinId, caller, req).result.Ok?
    ensures
      var r := UpdatePin(pins, pinId, caller, req);
      ReplacePin(pins, pinId, r.result.value) == r.state
  {
    var r := UpdatePin(pins, pinId, caller, req);
    var i :| 0 <= i < |pins| && pins[i].id == pinId && pins[i].creator == caller
             && Merge(pins[i], req) == Some(r.result.value) && r.state == pins[i := r.result.value];
    var local := ReplacePin(pins, pinId, r.result.value);
    forall j | 0 <= j < |pins| ensures local[j] == r.state[j] {
      assert pins[j].id == pinId <==> j == i;
    }
  }

  /** With unique ids, no pin before or after position `i` shares its id. */
  lemma FreshAround(pins: seq<Pin>, i: nat)
    requires i < |pins| && UniqueIds(pins)
    ensures FreshId(pins[..i], pins[i].id) && FreshId(pins[i + 1..], pins[i].id)
  {
    var id := pins[i].id;
    var head := pins[..i];
    var tail := pins[i + 1..];
    forall k | 0 <= k < |head| ensures head[k].id != id {
      assert head[k] == pins[k];
    }
    forall k | 0 <= k < |tail| ensures tail[k].id != id {
      assert tail[k] == pins[i + 1 + k];
    }
  }

  /** Filtering out the id of a pin nobody else carries drops that pin. */
  lemma RemovePinsSkipsOne(head: seq<Pin>, x: Pin, tail: seq<Pin>)
    requires FreshId(head, x.id) && FreshId(tail, x.id)
    ensures RemovePins(head + [x] + tail, x.id) == head + tail
  {
    RemovePinsAbsent(head, x.id);
    RemovePinsAbsent(tail, x.id);
    RemovePinsConcat(head + [x], tail, x.id);
    RemovePinsConcat(head, [x], x.id);
    assert RemovePins([x], x.id) == [];
  }

  /** With unique ids, filtering out one pin's id removes just that
      position. */
  lemma RemovePinsAtPosition(pins: seq<Pin>, i: nat)
    requires i < |pins| && UniqueIds(pins)
    ensures RemovePins(pins, pins[i].id) == pins[..i] + pins[i + 1..]
  {
    FreshAround(pins, i);
    assert pins == pins[..i] + [pins[i]] + pins[i + 1..];
    RemovePinsSkipsOne(pins[..i], pins[i], pins[i + 1..]);
  }

  /** Likewise after a delete. */
  lemma RemoveFollowsDelete(pins: PinStore, pinId: PinId, caller: UserId)
    requires UniqueIds(pins)
    requires DeletePin(pins, pinId, caller).result.Ok?
    ensures RemovePins(pins, pinId) == DeletePin(pins, pinId, caller).state
  {
    var after := DeletePin(pins, pinId, caller).state;
    var i :| 0 <= i < |pins| && pins[i].id == pinId && pins[i].creator == caller && after == pins[..i] + pins[i + 1..];
    RemovePinsAtPosition(pins, i);
  }

  /** A pin no older than any shown pin keeps the list newest first when
      put at its head. */
  lemma PrependNewest(shown: seq<Pin>, p: Pin)
    requires Descending(shown, CreatedAt)
    requires forall i :: 0 <= i < |shown| ==> shown[i].createdAt <= p.createdAt
    ensures Descending(PrependPin(shown, p), CreatedAt)
  {
    forall y | y in shown ensures CreatedAt(p) >= CreatedAt(y) {
      var i :| 0 <= i < |shown| && shown[i] == y;
    }
    ConsDescending(p, shown, CreatedAt);
  }

  /** After a create the page holds the same pins as the collection, and
      while the new pin is the newest it keeps the newest-first order of
      the listing. */
  lemma PrependFollowsCreate(trips: TripStore, pins: PinStore, tripId: TripId, caller: UserId,
                             newId: PinId, req: PinInput, now: int, shown: seq<Pin>)
    requires FreshId(pins, newId)
    requires CreatePin(trips, pins, tripId, caller, newId, req, now).result.Ok?
    requires multiset(shown) == multiset(pins)
    requires Descending(shown, CreatedAt)
    requires forall i :: 0 <= i < |shown| ==> shown[i].createdAt <= now
    ensures
      var r := CreatePin(trips, pins, tripId, caller, newId, req, now);
      var local := PrependPin(shown, r.result.value);
      && multiset(local) == multiset(r.state)
      && Descending(local, CreatedAt)
  {
    var r := CreatePin(trips, pins, tripId, caller, newId, req, now);
    PrependNewest(shown, r.result.value);
  }

  // The page only ever holds the pins of its own trip, the listing
  // `Select(pins, tripId, None)`. Filtering by trip commutes with the
  // page's three list updates, so the lemmas above also hold for that
  // listing.

  /** Selecting from two halves selects from each half. */
  lemma {:induction false} SelectConcat(a: PinStore, b: PinStore, trip: TripId, window: Option<int>)
    ensures Select(a + b, trip, window) == Select(a, trip, window) + Select(b, trip, window)
  {
    if |a| == 0 {
      assert a + b == b;
    } else {
      var ab := a + b;
      assert ab[0] == a[0] && ab[1..] == a[1..] + b;
      SelectConcat(a[1..], b, trip, window);
    }
  }

  /** Replacing a pin by one of the same trip commutes with selecting. */
  lemma {:induction false} SelectReplace(pins: PinStore, trip: TripId, id: PinId, updated: Pin)
    requires forall k :: 0 <= k < |pins| && pins[k].id == id ==> pins[k].trip == updated.trip
    ensures Select(ReplacePin(pins, id, updated), trip, None) == ReplacePin(Select(pins, trip, None), id, updated)
  {
    if |pins| > 0 {
      SelectReplace(pins[1..], trip, id, updated);
      var replaced := ReplacePin(pins, id, updated);
      assert replaced[1..] == ReplacePin(pins[1..], id, updated);
      var rest := Select(pins[1..], trip, None);
      if InQuery(pins[0], trip, None) {
        assert ([pins[0]] + rest)[1..] == rest;
      }
    }
  }

  /** Filtering out an id commutes with selecting. */
  lemma {:induction false} SelectRemove(pins: PinStore, trip: TripId, id: PinId)
    ensures Select(RemovePins(pins, id), trip, None) == RemovePins(Select(pins, trip, None), id)
  {
    if |pins| > 0 {
      SelectRemove(pins[1..], trip, id);
      var rest := Select(pins[1..], trip, None);
      if pins[0].id != id {
        assert ([pins[0]] + RemovePins(pins[1..], id))[1..] == RemovePins(pins[1..], id);
      }
      if InQuery(pins[0], trip, None) {
        assert ([pins[0]] + rest)[1..] == rest;
      }
    }
  }

  /** After an update, the trip's list on the page is the trip's listing
      the route leaves behind. */
  lemma TripListFollowsUpdate(pins: PinStore, pinId: PinId, caller: UserId, req: PinInput, trip: TripId)
    requires UniqueIds(pins)
    requires UpdatePin(pins, pinId, caller, req).result.Ok?
    ensures
      var r := UpdatePin(pins, pinId, caller, req);
      ReplacePin(Select(pins, trip, None), pinId, r.result.value) == Select(r.state, trip, None)
  {
    var r := UpdatePin(pins, pinId, caller, req);
    var i :| 0 <= i < |pins| && pins[i].id == pinId && pins[i].creator == caller
             && Merge(pins[i], req) == Some(r.result.value) && r.state == pins[i := r.result.value];
    forall k | 0 <= k < |pins| && pins[k].id == pinId ensures pins[k].trip == r.result.value.trip {
      assert k == i;
    }
    ReplaceFollowsUpdate(pins, pinId, caller, req);
    SelectReplace(pins, trip, pinId, r.result.value);
  }

  /** After a delete, the trip's list on the page is the trip's listing
      the route leaves behind. */
  lemma TripListFollowsDelete(pins: PinStore, pinId: PinId, caller: UserId, trip: TripId)
    requires UniqueIds(pins)
    requires DeletePin(pins, pinId, caller).result.Ok?
    ensures RemovePins(Select(pins, trip, None), pinId) == Select(DeletePin(pins, pinId, caller).state, trip, None)
  {
    RemoveFollowsDelete(pins, pinId, caller);
    SelectRemove(pins, trip, pinId);
  }

  /** After a create, the trip's list on the page holds the trip's
      listing the route leaves behind, newest first while the new pin is
      the newest. */
  lemma TripListFollowsCreate(trips: TripStore, pins: PinStore, tripId: TripId, caller: UserId,
                              newId: PinId, req: PinInput, now: int, shown: seq<Pin>)
    requires FreshId(pins, newId)
    requires CreatePin(trips, pins, tripId, caller, newId, req, now).result.Ok?
    requires multiset(shown) == multiset(Select(pins, tripId, None))
    requires Descending(shown, CreatedAt)
    requires forall i :: 0 <= i < |shown| ==> shown[i].createdAt <= now
    ensures
      var r := CreatePin(trips, pins, tripId, caller, newId, req, now);
      var local := PrependPin(shown, r.result.value);
      && multiset(local) == multiset(Select(r.state, tripId, None))
      && Descending(local, CreatedAt)
  {
    var r := CreatePin(trips, pins, tripId, caller, newId, req, now);
    var p := r.result.value;
    SelectConcat(pins, [p], tripId, None);
    assert Select([p], tripId, None) == [p] by {
      assert [p][1..] == [];
    }
    PrependNewest(shown, p);
  }

  // ------------------------------------------------------------ searching

  /** `handleSearch` asks the places service only for a query of at least
      three characters once trimmed. */
  function SearchAllowed(query: string): (r: bool)
    ensures r <==> |Trim(query)| >= 3
    ensures r ==> |query| >= 3
    ensures AllSpace(query) ==> !r
  {
    TrimEmptyIffAllSpace(query);
    |Trim(query)| >= 3
  }

  /** Whitespace around the query does not change the decision. */
  lemma SearchIgnoresSurroundingSpace(query: string)
    ensures SearchAllowed(Trim(query)) == SearchAllowed(query)
  {
    TrimIdempotent(query);
  }

  /** The map search trims before it counts, the airport lookup of the
      flight tab does not: every query the search accepts the lookup
      accepts too, and the lookup alone accepts exactly the queries of
      three or more characters that trim to fewer, such as `"  ab "`. */
  lemma SearchTrimsLookupDoesNot(query: string)
    ensures SearchAllowed(query) ==> LookupAllowed(Some(query))
    ensures LookupAllowed(Some(query)) && !SearchAllowed(query) <==> |query| >= 3 && |Trim(query)| < 3
    ensures LookupAllowed(Some("  ab ")) && !SearchAllowed("  ab ")
  {
    var i, j :| 0 <= i <= j <= |query| && Trim(query) == query[i..j];
    assert |Trim(query)| <= |query|;
    TrimOfPaddedPair();
  }

  lemma TrimOfPaddedPair()
    ensures Trim("  ab ") == "ab"
  {
    TrimStartOfPaddedPair();
    TrimEndOfPaddedPair();
  }

  lemma TrimStartOfPaddedPair()
    ensures TrimStart("  ab ") == "ab "
  {
    var q, q1, q2 := "  ab ", " ab ", "ab ";
    assert q[1..] == q1 && q1[1..] == q2;
    assert IsSpace(q[0]) && IsSpace(q1[0]) && !IsSpace(q2[0]);
    assert TrimStart(q1) == TrimStart(q2) == q2;
  }

  lemma TrimEndOfPaddedPair()
    ensures TrimEnd("ab ") == "ab"
  {
    var q2, q3 := "ab ", "ab";
    assert q2[..|q2| - 1] == q3;
    assert IsSpace(q2[|q2| - 1]) && !IsSpace(q3[|q3| - 1]);
    assert TrimEnd(q3) == q3;
  }

  /** `results.slice(0, 6)`. */
  function CapResults<T>(results: seq<T>): (r: seq<T>)
    ensures |r| <= 6
    ensures |r| == if |results| < 6 then |results| else 6
    ensures r == results[..|r|]
  {
    if |results| <= 6 then results else results[..6]
  }

  // --------------------------------------------------------------- notes

  /** One line the notes may carry: a prefix, the place's value, a suffix.
      The line is present only when the value is truthy. */
  datatype NoteField = NoteField(prefix: string, value: Option<string>, suffix: string)

  /** The line of a field that has a value. */
  function Line(f: NoteField): string
    requires f.value.Some?
  {
    f.prefix + f.value.value + f.suffix
  }

  /** The lines of the truthy fields, in field order. */
  function PresentLines(fields: seq<NoteField>): (r: seq<string>)
    ensures |r| <= |fields|
    ensures |r| == 0 <==> forall i :: 0 <= i < |fields| ==> !Truthy(fields[i].value)
  {
    if |fields| == 0 then []
    else
      var rest := PresentLines(fields[1..]);
      var f := fields[0];
      if Truthy(f.value) then [Line(f)] + rest else rest
  }

  /** A field added at the end adds its line at the end, when it has a
      value: the lines keep the order of the fields. */
  lemma {:induction false} PresentLinesSnoc(fields: seq<NoteField>, f: NoteField)
    ensures PresentLines(fields + [f])
            == PresentLines(fields) + (if Truthy(f.value) then [Line(f)] else [])
  {
    if |fields| == 0 {
      assert fields + [f] == [f];
    } else {
      assert (fields + [f])[0] == fields[0];
      assert (fields + [f])[1..] == fields[1..] + [f];
      PresentLinesSnoc(fields[1..], f);
    }
  }

  /** `parts.join('\n')`: empty when no field has a value, otherwise the
      first present line followed by the others, one per line. */
  function Notes(fields: seq<NoteField>): (r: string)
    ensures (forall i :: 0 <= i < |fields| ==> !Truthy(fields[i].value)) ==> r == ""
    ensures |PresentLines(fields)| > 0 ==>
      var first := PresentLines(fields)[0];
      |r| >= |first| && r[..|first|] == first
  {
    Join(PresentLines(fields), "\n")
  }

  predicate NoNewline(s: string) {
    '\n' !in s
  }

  predicate FieldsOnOneLine(fields: seq<NoteField>) {
    forall i :: 0 <= i < |fields| ==>
      NoNewline(fields[i].prefix) && NoNewline(fields[i].suffix)
      && (fields[i].value.Some? ==> NoNewline(fields[i].value.value))
  }

  lemma {:induction false} PresentLinesOnOneLine(fields: seq<NoteField>)
    requires FieldsOnOneLine(fields)
    ensures forall k :: 0 <= k < |PresentLines(fields)| ==> '\n' !in PresentLines(fields)[k]
  {
    if |fields| > 0 {
      PresentLinesOnOneLine(fields[1..]);
      var f := fields[0];
      if Truthy(f.value) {
        var line := f.prefix + f.value.value + f.suffix;
        assert '\n' !in line by {
          assert forall ch :: ch in line ==> ch in f.prefix || ch in f.value.value || ch in f.suffix;
        }
      }
    }
  }

  /** The notes can be read back: split at newlines they give the present
      lines again, so no field's text runs into another's. */
  lemma NotesSplitIntoLines(fields: seq<NoteField>)
    requires FieldsOnOneLine(fields)
    requires exists i :: 0 <= i < |fields| && Truthy(fields[i].value)
    ensures Split(Notes(fields), '\n') == PresentLines(fields)
  {
    PresentLinesOnOneLine(fields);
    SplitJoin(PresentLines(fields), '\n');
  }

  /** The notes are empty exactly when no field has a value, provided every
      line has a non-empty prefix. */
  lemma NotesEmptyIffNothingKnown(fields: seq<NoteField>)
    requires forall i :: 0 <= i < |fields| ==> fields[i].prefix != ""
    ensures Notes(fields) == "" <==> forall i :: 0 <= i < |fields| ==> !Truthy(fields[i].value)
  {
    var lines := PresentLines(fields);
    if |lines| > 0 {
      FirstLineHasLabel(fields);
    }
  }

  lemma {:induction false} FirstLineHasLabel(fields: seq<NoteField>)
    requires forall i :: 0 <= i < |fields| ==> fields[i].prefix != ""
    requires |PresentLines(fields)| > 0
    ensures PresentLines(fields)[0] != ""
  {
    if !Truthy(fields[0].value) {
      FirstLineHasLabel(fields[1..]);
    }
  }

  /** A text-search result, with the rating already rendered as text
      (`None` for a missing or zero rating). */
  datatype SearchResult = SearchResult(name: Option<string>, address: Option<string>,
                                       rating: Option<string>, placeId: Option<string>)

  /** The notes of the pin offered for a chosen search result: address,
      rating, place id. */
  function ResultNotes(res: SearchResult): (r: string)
    ensures !Truthy(res.address) && !Truthy(res.rating) && !Truthy(res.placeId) ==> r == ""
    ensures Truthy(res.address) && Truthy(res.rating) && Truthy(res.placeId) ==>
      r == "Address: " + res.address.value + "\n"
           + "Rating: " + res.rating.value + " \U{2B50}" + "\n"
           + "Google Place ID: " + res.placeId.value
  {
    var fields := [NoteField("Address: ", res.address, ""),
                   NoteField("Rating: ", res.rating, " \U{2B50}"),
                   NoteField("Google Place ID: ", res.placeId, "")];
    AllPresentLines3(fields);
    Notes(fields)
  }

  /** The notes of three present fields are their three lines. */
  lemma AllPresentLines3(fields: seq<NoteField>)
    requires |fields| == 3
    ensures (forall i :: 0 <= i < 3 ==> Truthy(fields[i].value)) ==>
      Notes(fields) == Line(fields[0]) + "\n" + Line(fields[1]) + "\n" + Line(fields[2])
  {
    if forall i :: 0 <= i < 3 ==> Truthy(fields[i].value) {
      assert PresentLines(fields[2..]) == [Line(fields[2])];
      assert PresentLines(fields[1..]) == [Line(fields[1]), Line(fields[2])];
      var lines := [Line(fields[0]), Line(fields[1]), Line(fields[2])];
      assert PresentLines(fields) == lines;
      assert lines[1..] == [Line(fields[1]), Line(fields[2])];
      assert lines[1..][1..] == [Line(fields[2])];
      assert Join(lines[1..][1..], "\n") == Line(fields[2]);
      assert Join(lines[1..], "\n") == Line(fields[1]) + "\n" + Line(fields[2]);
      assert Join(lines, "\n") == Line(fields[0]) + "\n" + (Line(fields[1]) + "\n" + Line(fields[2]));
    }
  }

  /** The request of the auto-added pin: the result's name or a
      placeholder title, category "other", the composed notes, no day. */
  function AutoPinRequest(res: SearchResult, lat: real, lng: real): (r: PinInput)
    ensures Truthy(r.title) && r.category == Some("other") && r.day == Omitted
    ensures Truthy(res.name) ==> r.title == res.name
    ensures !Truthy(res.name) ==> r.title == Some("Pinned place")
    ensures r.lat == Number(lat) && r.lng == Number(lng)
    ensures r.notes == Some(ResultNotes(res))
  {
    var title := if Truthy(res.name) then res.name.value else "Pinned place";
    PinInput(Number(lat), Number(lng), Some(title), Some("other"), Some(ResultNotes(res)), Omitted)
  }

  /** The auto-added pin passes the route's presence check exactly when
      both coordinates are non-zero, and then the schema accepts it unless
      its title is blank. */
  lemma AutoPinPassesChecks(res: SearchResult, lat: real, lng: real)
    ensures
      var req := AutoPinRequest(res, lat, lng);
      && (NumGiven(req.lat) && NumGiven(req.lng) <==> lat != 0.0 && lng != 0.0)
      && (CreateAccepted(req) <==> !AllSpace(req.title.value))
  {
  }

  /** The place details the page reads when a result is chosen. */
  datatype PlaceDetails = PlaceDetails(name: Option<string>, address: Option<string>, phone: Option<string>,
                                       rating: Option<string>, website: Option<string>, url: Option<string>)

  /** The notes composed from place details: empty when the place has
      none of the five fields, and opened by the address line when it has
      an address. */
  function DetailNotes(d: PlaceDetails): (r: string)
    ensures !Truthy(d.address) && !Truthy(d.phone) && !Truthy(d.rating) && !Truthy(d.website) && !Truthy(d.url)
            ==> r == ""
    ensures Truthy(d.address) ==> |r| >= 9 + |d.address.value| && r[..9 + |d.address.value|] == "Address: " + d.address.value
  {
    Notes([NoteField("Address: ", d.address, ""),
           NoteField("Phone: ", d.phone, ""),
           NoteField("Rating: ", d.rating, " \U{2B50}"),
           NoteField("Website: ", d.website, ""),
           NoteField("Google Maps: ", d.url, "")])
  }

  /** The add form's title and notes. */
  datatype PinForm = PinForm(title: string, category: string, notes: string)

  /** The prefill from place details: a typed title is kept, otherwise the
      place's name is used; composed notes replace the notes, but empty
      notes never clear them. */
  function Prefill(form: PinForm, d: PlaceDetails): (r: PinForm)
    ensures r.category == form.category
    ensures form.title != "" ==> r.title == form.title
    ensures form.title == "" && Truthy(d.name) ==> r.title == d.name.value
    ensures DetailNotes(d) == "" ==> r.notes == form.notes
    ensures DetailNotes(d) != "" ==> r.notes == DetailNotes(d)
  {
    var title := if form.title != "" then form.title else if Truthy(d.name) then d.name.value else form.title;
    var notes := if DetailNotes(d) != "" then DetailNotes(d) else form.notes;
    form.(title := title, notes := notes)
  }

  /** Details that carry nothing leave the form's notes alone. */
  lemma PrefillKeepsNotesWithoutDetails(form: PinForm, d: PlaceDetails)
    requires !Truthy(d.address) && !Truthy(d.phone) && !Truthy(d.rating) && !Truthy(d.website) && !Truthy(d.url)
    ensures Prefill(form, d).notes == form.notes
  {
    var fields := [NoteField("Address: ", d.address, ""),
                   NoteField("Phone: ", d.phone, ""),
                   NoteField("Rating: ", d.rating, " \U{2B50}"),
                   NoteField("Website: ", d.website, ""),
                   NoteField("Google Maps: ", d.url, "")];
    NotesEmptyIffNothingKnown(fields);
  }
}
