/** The rules of the trip detail page (frontend/.../pages/TripDetailPage.jsx)
    that decide what is sent to the trip routes: the date check of the edit
    form, how fetched ideas are appended to the plan, and which controls
    are offered to whom. */
module TripPage {
  import opened Common
  import opened Calendar
  import opened Text
  import opened Trips
  import opened AvailabilityTab

  // ------------------------------------------------------- date validation

  /** `Math.ceil(a / b)` for a positive divisor. */
  function CeilDiv(a: int, b: int): (q: int)
    requires b > 0
    ensures (q - 1) * b < a <= q * b
  {
    var f := a / b;
    if a % b == 0 then f else f + 1
  }

  /** The number of calendar days the edit form counts between two
      instants, both ends included. */
  function DayCount(start: int, end: int): (r: int)
    ensures (r - 2) * MsPerDay < end - start <= (r - 1) * MsPerDay
  {
    CeilDiv(end - start, MsPerDay) + 1
  }

  /** The messages of `validateDates`. */
  datatype DateProblem = InvalidDates | EndNotAfterStart | TooLong

  /** `validateDates()`: dates that do not parse (`None`) come first, then
      the ordering, then the 365-day cap. `None` means the dates are
      acceptable. */
  function ValidateDates(start: Option<int>, end: Option<int>): (r: Option<DateProblem>)
    ensures r == Some(InvalidDates) <==> start.None? || end.None?
    ensures r == Some(EndNotAfterStart) <==> start.Some? && end.Some? && end.value <= start.value
    ensures r == Some(TooLong) <==> start.Some? && end.Some? && end.value - start.value > 364 * MsPerDay
    ensures r.None? <==> start.Some? && end.Some? && start.value < end.value <= start.value + 364 * MsPerDay
  {
    if start.None? || end.None? then Some(InvalidDates)
    else if end.value <= start.value then Some(EndNotAfterStart)
    else if DayCount(start.value, end.value) > 365 then Some(TooLong)
    else None
  }

  /** Accepted dates span between two and 365 counted days. */
  lemma AcceptedSpan(start: int, end: int)
    requires ValidateDates(Some(start), Some(end)).None?
    ensures 2 <= DayCount(start, end) <= 365
  {
  }

  /** For dates at UTC midnight (what a date input yields), the counted days
      are the days the availability tab lists, so an accepted trip offers
      at most 365 candidate dates. */
  lemma {:induction false} CountMatchesCandidateDates(start: int, end: int)
    requires start % MsPerDay == 0 && end % MsPerDay == 0 && start < end
    ensures DayCount(start, end) == |DatesInRange(start, end)|
    ensures ValidateDates(Some(start), Some(end)).None? ==> |DatesInRange(start, end)| <= 365
  {
    var k := DayOf(end) - DayOf(start);
    assert end - start == k * MsPerDay;
    assert CeilDiv(end - start, MsPerDay) == k;
    DatesAreTheTripDays(start, end);
  }

  /** The edit form: name and destination as typed, dates as parsed. */
  datatype EditForm = EditForm(name: string, destination: string, start: Option<int>, end: Option<int>)

  datatype SaveAction = ShowError(problem: DateProblem) | SendUpdate(name: string, destination: string, start: int, end: int)

  /** `handleEditSave`: the request is sent only when the dates pass the
      check, and carries the whole form. */
  function EditSave(form: EditForm): (r: SaveAction)
    ensures r.SendUpdate? <==> ValidateDates(form.start, form.end).None?
    ensures r.ShowError? ==> ValidateDates(form.start, form.end) == Some(r.problem)
    ensures r.SendUpdate? ==> r == SendUpdate(form.name, form.destination, form.start.value, form.end.value)
  {
    match ValidateDates(form.start, form.end)
    case Some(p) => ShowError(p)
    case None => SendUpdate(form.name, form.destination, form.start.value, form.end.value)
  }

  /** What the page sends, the trip route accepts from the owner: the stored
      trip gets exactly the dates of the form. */
  lemma SentUpdateIsAccepted(trips: TripStore, id: TripId, caller: UserId, form: EditForm)
    requires id in trips && trips[id].owner == caller
    requires EditSave(form).SendUpdate?
    ensures
      var a := EditSave(form);
      var r := UpdateTrip(trips, id, caller, Some(a.name), Some(a.destination), At(a.start), At(a.end));
      r.result.Ok? && r.result.value.start == a.start && r.result.value.end == a.end
  {
  }

  // ------------------------------------------------------------- the plan

  /** `setPlanText((prev) => prev ? prev + "\n\n" + ideas : ideas)`. */
  function AppendIdeas(prev: string, ideas: string): (r: string)
    ensures prev == "" ==> r == ideas
    ensures prev != "" ==> |r| == |prev| + 2 + |ideas| && r[..|prev|] == prev && r[|prev|..] == "\n\n" + ideas
  {
    if prev == "" then ideas else prev + "\n\n" + ideas
  }

  /** The plan after a run of fetched ideas, oldest first. */
  function AppendAll(prev: string, batches: seq<string>): string
    decreases |batches|
  {
    if |batches| == 0 then prev
    else AppendIdeas(AppendAll(prev, batches[..|batches| - 1]), batches[|batches| - 1])
  }

  predicate NoneEmpty(batches: seq<string>) {
    forall i :: 0 <= i < |batches| ==> batches[i] != ""
  }

  /** Starting from an empty plan, fetching non-empty ideas builds the
      ideas separated by blank lines. */
  lemma {:induction false} AppendAllIsJoin(batches: seq<string>)
    requires |batches| > 0 && NoneEmpty(batches)
    ensures AppendAll("", batches) == Join(batches, "\n\n")
  {
    var n := |batches|;
    if n == 1 {
      assert batches[..0] == [];
    } else {
      var init := batches[..n - 1];
      AppendAllIsJoin(init);
      assert init[0] == batches[0];
      assert Join(init, "\n\n") != "";
      JoinSnoc(init, batches[n - 1], "\n\n");
      assert init + [batches[n - 1]] == batches;
    }
  }

  /** A successful recommendation never blanks the plan: the previous plan
      stays in front and the new ideas end it. */
  lemma RecommendationExtendsPlan(trips: TripStore, id: TripId, caller: UserId,
                                  keyConfigured: bool, reply: AiReply, prev: string)
    requires Recommend(trips, id, caller, keyConfigured, reply).Ok?
    ensures
      var ideas := Recommend(trips, id, caller, keyConfigured, reply).value;
      var plan := AppendIdeas(prev, ideas);
      && plan != ""
      && plan[..|prev|] == prev
      && plan[|plan| - |ideas|..] == ideas
  {
  }

  // ------------------------------------------------------------- controls

  /** The Edit Trip button and the invite form are rendered for the owner
      only. */
  function OwnerControls(trip: Trip, viewer: UserId): (r: bool)
    ensures r <==> trip.owner == viewer
  {
    trip.owner == viewer
  }

  /** Whether a member's card carries a Remove button for the viewer. */
  function RemoveControl(trip: Trip, viewer: UserId, member: UserId): (r: bool)
    ensures r ==> member != trip.owner
  {
    OwnerControls(trip, viewer) && member != trip.owner
  }

  /** The controls are offered exactly when the trip routes would honour
      them: a shown Remove button is a removal the route performs, a hidden
      one a removal it refuses, and only the viewer who sees the owner
      controls may edit, invite or delete. */
  lemma ControlsAgreeWithRoutes(trips: TripStore, users: map<string, UserId>, id: TripId,
                                viewer: UserId, member: UserId, email: string)
    requires id in trips
    requires email != ""
    ensures RemoveControl(trips[id], viewer, member) <==> RemoveMember(trips, id, viewer, member).result.Ok?
    ensures !OwnerControls(trips[id], viewer) ==>
      && UpdateTrip(trips, id, viewer, None, None, Omitted, Omitted).result == Fail(Forbidden)
      && AddMember(trips, users, id, viewer, Some(email)).result == Fail(Forbidden)
      && DeleteTrip(trips, id, viewer).result == Fail(Forbidden)
    ensures OwnerControls(trips[id], viewer) <==> DeleteTrip(trips, id, viewer).result.Ok?
  {
  }
}
