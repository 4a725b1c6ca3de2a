# TripBoard in Dafny

TripBoard is a trip planner for small groups. A trip has an owner and a
member list. Members vote on which of the trip's days they can travel
("can", "maybe", "cannot", or no response), and the availability tab ranks
the days by a group score. Members also pin places on a shared map, keep a
free-text plan and search for flights.

This project models the rules behind those features as pure Dafny functions
over immutable data, and proves properties of them:

- **The date-voting engine.** The availability records and their unique
  (trip, user, date) key. The GET, POST and DELETE handlers over that store.
  On the client: the day list, the scores, the stable top-three ranking,
  the vote cycle, the per-member lookups and the local list update.
- **Trips.** The access rule (owner or member), create and update with
  their date checks, adding and removing members, setting and clearing the
  plan, and the 14-day window of the recommendation prompt.
- **The trip detail page.** The date check of the edit form with its
  365-day cap, how fetched ideas are appended to the plan, and which
  controls the page offers to whom.
- **Pins.** The schema's casts, defaults and enum. Create with its presence
  checks, the update merge, creator-only edit and delete, the day filter
  and the newest-first order.
- **The map tab.** Colours and labels per category, the local list updates
  after create, update and delete, the search guard, and the notes built
  from place data.
- **The flight tab.** Reading an ISO 8601 duration, the destination
  prefill, the stop label, the lookup guard and the date part of a
  timestamp.
- **Flights.** The search and price guards, the query the search sends, and
  the cached access token with its one-minute early expiry.
- **The server.** The CORS allow-list and origin decision, and the
  session-cookie options.

## Representation

- Stores are values: trips are `map<TripId, Trip>`, availability records
  are `map<Key, Entry>`, and pins are a `seq<Pin>` with unique ids. A
  handler is a function from the store and the request to a `Step`, which
  holds the HTTP outcome and the store afterwards.
- Instants are integer milliseconds since the epoch, in UTC. A calendar day
  is `DayOf(t)` and its start is `Midnight(t)`.
- A request field that may be missing, falsy or malformed gets its own
  type. `DateArg` covers an absent field, a falsy value, a string that is
  not a date, and a valid instant. `NumArg` covers an absent or falsy
  number (zero is falsy), a number, and a non-numeric value.
- Everything a handler gets from outside its own logic is a parameter: the
  clock, the id the store assigns, and the replies of the authentication,
  flight and AI services.
- Every exception a handler's `catch` answers with a 500 is `ServerError`.
  This covers a failed validation in `save()`, a date cast error and a
  failed service call.

The shared vocabulary lives in `Common`, `Calendar` and `Text`. `Text`
models JavaScript's `trim`, `split`, `join` and `toUpperCase`. `Sorting`
holds the stable descending sort that both `Array.prototype.sort` and the
pin listing rely on.

## Model

| member | source | states |
|---|---|---|
| AvailabilityModel.ParseStatus | backend/models/Availability.js:18-22 | Exactly "can", "maybe" and "cannot" are accepted, and each parses to the status that prints as the same string. |
| AvailabilityModel.ParseStatusName | backend/models/Availability.js:18-22 | Printing a status and parsing it back returns the status. |
| AvailabilityModel.Upsert | backend/routes/availability.js:62-70 | The record under the key is created or replaced with the new status. Its creation time survives a replace. Every other record is unchanged. |
| AvailabilityModel.Delete | backend/routes/availability.js:101-105 | Only the record under the key is removed. Every remaining record is unchanged. |
| AvailabilityModel.OfTrip | backend/routes/availability.js:26-27 | The query returns exactly the trip's records, from every voter, unchanged. |
| AvailabilityModel.UpsertTwice | backend/models/Availability.js:27-28 | Two votes on the same key leave the same store as the second vote alone, apart from the first vote's creation time. The unique index keeps one record per key. |
| AvailabilityModel.DeleteIdempotent | backend/routes/availability.js:101-105 | Deleting twice is the same as deleting once. |
| AvailabilityRoutes.GetAvailability | backend/routes/availability.js:11-29 | 404 for an unknown trip and 403 for an outsider. Otherwise it answers with every record of the trip and nothing else. |
| AvailabilityRoutes.SetAvailability | backend/routes/availability.js:37-72 | A missing date or status, or a status outside the enum, is a 400 before any trip lookup. After that come 404 and 403. An unparseable date is a 500. A failure never writes. On success the caller's record for that instant holds the status, and nobody else's record moves. |
| AvailabilityRoutes.ClearAvailability | backend/routes/availability.js:80-107 | A missing date is a 400, then 404 and 403. On success exactly the caller's record for that instant is gone. A failure never writes. |
| AvailabilityRoutes.WritesOnlyOwnVotes | backend/routes/availability.js:37-107 | Whatever the request, POST and DELETE leave every other user's records exactly as they were. |
| AvailabilityRoutes.LatestVoteWins | backend/routes/availability.js:62-70 | Two votes by the same member on the same day leave one record, holding the second status. The rest of the store is as before. |
| AvailabilityRoutes.ClearIdempotent | backend/routes/availability.js:101-107 | Clearing twice answers and stores the same as clearing once. Clearing a day without a vote changes nothing. |
| AvailabilityRoutes.SetThenClear | backend/routes/availability.js:62-105 | Voting and then clearing the same day leaves the store as before the vote, minus any earlier record of that day. |
| AvailabilityRoutes.VoteVisibleToMembers | backend/routes/availability.js:11-105 | After a successful vote every member's listing holds the caller's new record for that date, and after a successful clear it holds none. |
| Calendar.Midnight | backend/routes/pins.js:29-33 | `setUTCHours(0,0,0,0)` gives the start of the instant's UTC day. |
| Calendar.InDayWindow | backend/routes/pins.js:29-34 | An instant lies in `[midnight, midnight + 1 day)` of `t` exactly when it falls on `t`'s day. |
| AvailabilityTab.DatesInRange | frontend/frontend/src/components/Availability/AvailabilityTab.jsx:70-78 | Every date lies within the range, and there are `(end - start) / day + 1` of them, or none when the end is before the start. |
| AvailabilityTab.DatesAreTheTripDays | frontend/frontend/src/components/Availability/AvailabilityTab.jsx:70-78 | For a trip stored at midnights, the list has one date per calendar day from start to end inclusive, consecutive and strictly ascending. |
| AvailabilityTab.ScoreByCounts | frontend/frontend/src/components/Availability/AvailabilityTab.jsx:88-99 | A day's score is 3 × can + 1 × maybe − 2 × cannot, counted over that day's records only. |
| AvailabilityTab.ScoreWithoutVotes | frontend/frontend/src/components/Availability/AvailabilityTab.jsx:88-99 | A day nobody voted on scores 0, whatever the votes on other days. |
| AvailabilityTab.Score | frontend/frontend/src/components/Availability/AvailabilityTab.jsx:88-99 | Each record moves the score by at most three up or two down. |
| AvailabilityTab.ScoreIgnoresOrder | frontend/frontend/src/components/Availability/AvailabilityTab.jsx:88-99 | The score depends only on the multiset of records, not on the order the server returned them in. |
| AvailabilityTab.Scored | frontend/frontend/src/components/Availability/AvailabilityTab.jsx:157-160 | Each date is paired with its own day's score, in date order. |
| AvailabilityTab.RankedDates | frontend/frontend/src/components/Availability/AvailabilityTab.jsx:156-162 | The list has min(3, number of days) entries. Each entry is a candidate date with its own score, and the scores never increase down the list. |
| AvailabilityTab.RankedTieBreak | frontend/frontend/src/components/Availability/AvailabilityTab.jsx:156-162 | Over the ascending date list the stable sort ranks a higher score first and, on equal scores, the earlier day first. |
| AvailabilityTab.RankedAreTop | frontend/frontend/src/components/Availability/AvailabilityTab.jsx:156-162 | Every candidate date left out of the top list ranks behind each date in it, by score and then by date. |
| AvailabilityTab.FiveDayExample | frontend/frontend/src/components/Availability/AvailabilityTab.jsx:70-162 | On a five-day trip with votes on days 2 and 3, the ranking is day 2 (4), day 3 (1), then day 1 (0), which wins the tie with days 4 and 5. |
| AvailabilityTab.FindVote | frontend/frontend/src/components/Availability/AvailabilityTab.jsx:81-84 | `find` returns the first record of that user on that day, and none exactly when there is no such record. |
| AvailabilityTab.StatusOf | frontend/frontend/src/components/Availability/AvailabilityTab.jsx:80-86 | No response exactly when the user has no record for the day. Otherwise it is the status of the user's first record for that day in list order, as `find` returns it. |
| AvailabilityTab.DateStatuses | frontend/frontend/src/components/Availability/AvailabilityTab.jsx:101-112 | One entry per trip member, in member order, each holding that member's status for the day or none. |
| AvailabilityTab.Cycle | frontend/frontend/src/components/Availability/AvailabilityTab.jsx:114-119 | A click always changes the status. |
| AvailabilityTab.CycleHasPeriodFour | frontend/frontend/src/components/Availability/AvailabilityTab.jsx:114-119 | Four clicks return to the start, and no fewer do. |
| AvailabilityTab.CycleText | frontend/frontend/src/components/Availability/AvailabilityTab.jsx:114-119 | The next value is always one of the list's entries, and differs from the current value when that is listed. |
| AvailabilityTab.IndexOf | frontend/frontend/src/components/Availability/AvailabilityTab.jsx:116 | `indexOf` is the first position of the value, or −1 exactly when the value is absent. |
| AvailabilityTab.CycleTextAgrees | frontend/frontend/src/components/Availability/AvailabilityTab.jsx:114-119 | On the string values the client stores, the list-index code goes none → can → maybe → cannot → none. |
| AvailabilityTab.CycleTextUnknown | frontend/frontend/src/components/Availability/AvailabilityTab.jsx:114-119 | A value that is not in the list (index −1) cycles to no response. |
| AvailabilityTab.WithoutVote | frontend/frontend/src/components/Availability/AvailabilityTab.jsx:35-43 | The filter drops exactly the user's records on that day and keeps every other record. |
| AvailabilityTab.StatusChange | frontend/frontend/src/components/Availability/AvailabilityTab.jsx:28-61 | Every record of another user or another day survives the update, and the update adds no record of another user or day. |
| AvailabilityTab.SavedVote | frontend/frontend/src/components/Availability/AvailabilityTab.jsx:47-60 | The record the page appends is the caller's, holds the chosen status, and falls on the clicked day. |
| AvailabilityTab.StatusChangeShowsChoice | frontend/frontend/src/components/Availability/AvailabilityTab.jsx:33-61 | After the update the tab shows the chosen status. The user holds exactly one record on that day after a set and none after a clear. |
| AvailabilityTab.ClickAdvancesCycle | frontend/frontend/src/components/Availability/AvailabilityTab.jsx:28-119 | Clicking a day's button advances what the tab shows for the user by one step of the cycle. |
| AvailabilityTab.StatusChangeKeepsOthers | frontend/frontend/src/components/Availability/AvailabilityTab.jsx:33-61 | Every other user's status, and the user's own status on other days, reads the same after the update. |
| AvailabilityTab.StatusChangeKeepsOtherScores | frontend/frontend/src/components/Availability/AvailabilityTab.jsx:33-99 | The scores of the other days do not move when a vote changes. |
| Sorting.SortDesc | frontend/frontend/src/components/Availability/AvailabilityTab.jsx:161 | The result is a permutation of the input, ordered by non-increasing key. |
| Sorting.SortDescStable | frontend/frontend/src/components/Availability/AvailabilityTab.jsx:161 | Elements with equal keys keep their relative order. |
| Trips.HasAccess | backend/routes/trips.js:153-155 | A user may read a trip exactly when they own it or are in its member list. |
| Trips.Authorize | backend/routes/trips.js:147-158 | 404 exactly when the trip is unknown, 403 exactly when the caller has no access, and otherwise the stored trip. |
| Trips.ListTrips | backend/routes/trips.js:10-17 | The caller sees exactly the trips they own or belong to. |
| Trips.CreateTrip | backend/routes/trips.js:55-83 | A missing field or an end not after the start is a 400 and stores nothing. A date that cannot be parsed fails the save with a 500. On success the new trip is stored under the fresh id, with the caller as owner and only member and an empty plan. |
| Trips.DateAfterUpdate | backend/routes/trips.js:107-108 | An absent or falsy date keeps the stored date and a valid one replaces it. An unparseable one is refused by the document's date cast, which records the error and also keeps the stored date. |
| Trips.UpdateTrip | backend/routes/trips.js:91-117 | 404, then 403 for anyone but the owner. For the owner, merged dates that are not ordered are a 400; ordered ones succeed, unless a date failed its cast, which fails the save with a 500. On success truthy fields replace the stored ones and the owner, members and plan are untouched. A failure never writes. |
| Trips.UnparseableDateKeepsStored | backend/routes/trips.js:107-111 | Against a stored trip from 10 to 20, an unparseable start with an end of 5 is the ordering 400, and with an end of 15 a failed save. |
| Trips.DeleteTrip | backend/routes/trips.js:126-139 | Only the owner may delete. On success exactly that trip is removed. |
| Trips.GetPlan | backend/routes/trips.js:147-159 | Any member reads the stored plan text. Refusals are those of the access guard. |
| Trips.SetPlan | backend/routes/trips.js:167-182 | Any member stores the given text, or the empty text when none is sent. Only the plan changes. |
| Trips.ClearPlan | backend/routes/trips.js:190-204 | Any member empties the plan. Only the plan changes. |
| Trips.ClearPlanIsEmptySet | backend/routes/trips.js:167-204 | Clearing the plan is the same transition as storing the empty text, or storing with no text at all. |
| Trips.AddMember | backend/routes/trips.js:212-241 | A missing e-mail is a 400, then 404 and 403 (owner only). An unknown user is a 404 and an existing member a 400. On success the user is appended to the member list. |
| Trips.Without | backend/routes/trips.js:266 | The filter removes every occurrence of the id and keeps every other member with its multiplicity. |
| Trips.RemoveMember | backend/routes/trips.js:250-270 | Owner only, and never the owner: removing the caller's own id is a 400. On success the member is filtered out. A failure never writes. |
| Trips.RemoveNonMemberIsNoOp | backend/routes/trips.js:250-270 | Removing someone who is not a member answers success and stores the same trip. |
| Trips.CreatedTripIsListed | backend/routes/trips.js:10-17 | A created trip is added to its creator's listing. |
| Trips.AddedMemberSeesTrip | backend/routes/trips.js:10-17 | Adding a member adds the trip to their listing and moves nobody else's. |
| Trips.RemovedMemberLosesTrip | backend/routes/trips.js:10-17 | Removing a member drops the trip from their listing and moves nobody else's. |
| Trips.CreatePreservesWellFormed | backend/routes/trips.js:55-83 | Every stored trip keeps end after start, an owner who is a member, and no duplicate members. |
| Trips.UpdatePreservesWellFormed | backend/routes/trips.js:91-117 | The same invariant survives an update. |
| Trips.AddMemberPreservesWellFormed | backend/routes/trips.js:212-241 | The same invariant survives adding a member, because duplicates are refused. |
| Trips.RemoveMemberPreservesWellFormed | backend/routes/trips.js:250-270 | The same invariant survives removing a member, because the owner cannot be removed. |
| Trips.PlanPreservesWellFormed | backend/routes/trips.js:167-204 | The same invariant survives setting or clearing the plan. |
| Trips.RecommendationEnd | backend/routes/trips.js:299-302 | The prompt ends at the earlier of the trip's end and thirteen days after its start. |
| Trips.RecommendationWindowAtMostFourteenDays | backend/routes/trips.js:299-302 | The prompt covers at most fourteen calendar days, starting on the trip's first day. |
| Trips.Recommend | backend/routes/trips.js:279-337 | Without an API key it is a 500 before any lookup. Then come the access guard and the service call, whose failure is a 500. A successful answer is the reply's content, or "No ideas generated." when the service sends none. |
| PinModel.ParseCategory | backend/models/Pin.js:31-35 | Exactly the five category names pass the enum, each to the category with that name. |
| PinModel.CastNumber | backend/models/Pin.js:18-25 | A truthy coordinate casts exactly when it is a number, and keeps its value. |
| PinModel.CastTitle | backend/models/Pin.js:26-30 | The title is stored trimmed. A title that is all whitespace fails `required`. |
| PinModel.CastDay | backend/routes/pins.js:78 | A falsy day is null, a date becomes its UTC midnight, and an unparseable date is refused. |
| PinModel.CastCategory | backend/routes/pins.js:76 | A falsy category defaults to "other". Any other value must be an enum name and is stored as that name. |
| Pins.FindPin | backend/routes/pins.js:94-98 | The lookup finds the pin with that id, or none exactly when no pin has it. |
| Pins.Select | backend/routes/pins.js:27-37 | The query returns exactly the trip's pins, restricted to the day window when one is given. |
| Pins.WindowSelectsDateDay | backend/routes/pins.js:28-34 | A date query returns exactly the pins whose day falls on the queried date's UTC day. |
| Pins.QueryWindow | backend/routes/pins.js:28-34 | No date gives no window, a date gives the window from its midnight, and an unparseable date is a cast error. |
| Pins.ListPins | backend/routes/pins.js:11-41 | 404, then 403, then a 500 for an unparseable date. Otherwise it returns exactly the trip's pins (on the queried day, when given), newest first. |
| Pins.ListKeepsStoreOrderOnTies | backend/routes/pins.js:37-39 | Pins created at the same instant are listed in store order. |
| Pins.NewPin | backend/routes/pins.js:70-79 | With the route's defaults, the new pin has the request's coordinates, a trimmed title, "other" for a missing category, the given notes trimmed or empty notes for missing ones, a null day for a missing day and the midnight otherwise. It is refused exactly when the schema would refuse it. |
| Pins.CreatePin | backend/routes/pins.js:49-84 | Falsy coordinates or title are a 400 before the trip lookup, then 404 and 403. A pin the model would refuse to save is a 500. On success the valid new pin is appended. A failure never writes. |
| Pins.CreatePreservesInvariant | backend/routes/pins.js:70-81 | Ids stay unique and every stored pin stays valid after a create. |
| Pins.CreatedPinListedOnItsDay | backend/routes/pins.js:11-84 | A created pin is listed for its trip, and is listed for a date exactly when that date falls on the pin's day. |
| Pins.Merge | backend/routes/pins.js:104-119 | Title, category and coordinates change only for truthy values. Notes change for any defined value. The day is kept when absent, cleared when falsy and set to the midnight otherwise. Identity, trip, creator and creation time never change, and a valid pin stays valid. |
| Pins.UpdatePin | backend/routes/pins.js:92-124 | 404 for an unknown pin and 403 for anyone but its creator. A merge the model would refuse to save is a 500. On success that pin is replaced by its merge in place. A failure never writes. |
| Pins.DeletePin | backend/routes/pins.js:132-145 | 404 for an unknown pin, then 403 for anyone but its creator. The creator's call removes that pin. |
| Pins.UpdateKeepsOthers | backend/routes/pins.js:92-124 | An update keeps the length, every other pin, every id and validity. |
| Pins.UpdateIdempotent | backend/routes/pins.js:104-121 | Sending the same update twice stores the same as sending it once. |
| Pins.EmptyUpdateKeepsPin | backend/routes/pins.js:104-119 | An empty body leaves the pin unchanged. |
| Pins.DeleteRemovesOnlyThePin | backend/routes/pins.js:132-145 | After a delete the id is gone, exactly one pin fewer remains, every other pin remains, and ids stay unique. |
| MapTab.MarkerColor | frontend/frontend/src/components/Map/MapTab.jsx:10-19 | The marker uses the category's colour, or the colour of "other" for an unknown category. |
| MapTab.CategoryLabel | frontend/frontend/src/components/Map/MapTab.jsx:257-266 | The label is the category's, or that of "other" for an unknown category. |
| MapTab.CategoriesAreDistinguished | frontend/frontend/src/components/Map/MapTab.jsx:257-266 | The colour table (lines 10-16) and the label table cover exactly the schema's enum, and two different categories never share a colour or a label. |
| MapTab.UnknownCategoryLooksLikeOther | frontend/frontend/src/components/Map/MapTab.jsx:19 | A name outside the enum is drawn, and labelled at line 265, like "other". |
| MapTab.PrependPin | frontend/frontend/src/components/Map/MapTab.jsx:118 | The new pin comes first, followed by the previous list. |
| MapTab.ReplacePin | frontend/frontend/src/components/Map/MapTab.jsx:132 | Each pin with the id becomes the updated pin. Every other position is unchanged. |
| MapTab.RemovePinsMembers | frontend/frontend/src/components/Map/MapTab.jsx:144 | Exactly the pins with another id remain. |
| MapTab.RemovePins | frontend/frontend/src/components/Map/MapTab.jsx:144 | No remaining pin carries the removed id, and the list never grows. |
| MapTab.ReplaceFollowsUpdate | frontend/frontend/src/components/Map/MapTab.jsx:132 | After a successful update, the page's list equals the server's collection. |
| MapTab.RemoveFollowsDelete | frontend/frontend/src/components/Map/MapTab.jsx:144 | After a successful delete, the page's list equals the server's collection. |
| MapTab.PrependFollowsCreate | frontend/frontend/src/components/Map/MapTab.jsx:118 | After a create, the page holds the same pins as the server. The list stays newest first when the new pin is the newest. |
| MapTab.SelectConcat | backend/routes/pins.js:27-37 | Listing a trip's pins from two halves of the collection lists each half in turn. |
| MapTab.SelectReplace | frontend/frontend/src/components/Map/MapTab.jsx:132 | Replacing a pin by one of the same trip and then listing the trip gives the trip's listing with that pin replaced. |
| MapTab.SelectRemove | frontend/frontend/src/components/Map/MapTab.jsx:144 | Dropping an id and then listing the trip gives the trip's listing with that id dropped. |
| MapTab.TripListFollowsUpdate | frontend/frontend/src/components/Map/MapTab.jsx:132 | After a successful update, the page's list of the trip's pins equals the trip's listing on the server. |
| MapTab.TripListFollowsDelete | frontend/frontend/src/components/Map/MapTab.jsx:144 | After a successful delete, the page's list of the trip's pins equals the trip's listing on the server. |
| MapTab.TripListFollowsCreate | frontend/frontend/src/components/Map/MapTab.jsx:118 | After a create, the page holds the same pins as the trip's listing on the server. The list stays newest first when the new pin is the newest. |
| MapTab.SearchAllowed | frontend/frontend/src/components/Map/MapTab.jsx:170-173 | Once the map has loaded, a search runs exactly when the trimmed query has at least three characters, so never on a shorter query nor on one that is all whitespace. |
| MapTab.SearchIgnoresSurroundingSpace | frontend/frontend/src/components/Map/MapTab.jsx:170 | Surrounding whitespace does not change the decision. |
| MapTab.SearchTrimsLookupDoesNot | frontend/frontend/src/components/Map/MapTab.jsx:170 | Every query the map search accepts the airport lookup accepts too; the lookup alone accepts exactly the queries of three or more characters that trim to fewer, such as `"  ab "`. |
| MapTab.CapResults | frontend/frontend/src/components/Map/MapTab.jsx:184 | At most six results are kept: the first ones, in order. |
| MapTab.PresentLines | frontend/frontend/src/components/Map/MapTab.jsx:204-207 | At most one line per field, as in the details prefill at lines 237-242. There are no lines exactly when no field has a value. |
| MapTab.PresentLinesSnoc | frontend/frontend/src/components/Map/MapTab.jsx:204-207 | A field added at the end adds its line `prefix + value + suffix` at the end exactly when its value is truthy, so the lines follow the field order. |
| MapTab.NotesSplitIntoLines | frontend/frontend/src/components/Map/MapTab.jsx:208 | When no value holds a newline, splitting the joined notes at newlines gives back the lines. |
| MapTab.NotesEmptyIffNothingKnown | frontend/frontend/src/components/Map/MapTab.jsx:208 | The notes are empty exactly when no field has a value. |
| MapTab.Notes | frontend/frontend/src/components/Map/MapTab.jsx:208 | Empty when no field has a value; otherwise it starts with the first present line. |
| MapTab.ResultNotes | frontend/frontend/src/components/Map/MapTab.jsx:204-208 | Empty for a result with no address, rating or place id; with all three it is `Address: …`, `Rating: … ⭐` and `Google Place ID: …` on three lines. |
| MapTab.DetailNotes | frontend/frontend/src/components/Map/MapTab.jsx:237-243 | Empty for details with none of the five fields; with an address it starts with `Address: ` and the address. |
| MapTab.AutoPinRequest | frontend/frontend/src/components/Map/MapTab.jsx:209-216 | The auto-added pin has the result's coordinates, the result's name or "Pinned place" when it has none, category "other", the composed result notes, and no day. |
| MapTab.AutoPinPassesChecks | frontend/frontend/src/components/Map/MapTab.jsx:209-216 | The auto-added pin passes the route's presence check exactly when neither coordinate is 0. The schema accepts it exactly when its title is not all whitespace. |
| MapTab.Prefill | frontend/frontend/src/components/Map/MapTab.jsx:236-248 | A typed title is kept, otherwise the place's name is used. Non-empty detail notes replace the form's notes. The category is untouched. |
| MapTab.PrefillKeepsNotesWithoutDetails | frontend/frontend/src/components/Map/MapTab.jsx:247 | Details that carry nothing leave the form's notes alone. |
| TripPage.ValidateDates | frontend/frontend/src/pages/TripDetailPage.jsx:138-146 | The dates are accepted exactly when both parse, the end is after the start, and the end is within 364 days of the start. Each message is given exactly in its case. |
| TripPage.AcceptedSpan | frontend/frontend/src/pages/TripDetailPage.jsx:143-144 | Accepted dates count between 2 and 365 days. |
| TripPage.DayCount | frontend/frontend/src/pages/TripDetailPage.jsx:143 | The count is the least number of whole days covering the span, plus one for the first day. |
| TripPage.CountMatchesCandidateDates | frontend/frontend/src/pages/TripDetailPage.jsx:143-144 | For midnight dates the form's day count equals the number of candidate dates the availability tab lists. An accepted trip therefore offers at most 365 dates to vote on. |
| TripPage.EditSave | frontend/frontend/src/pages/TripDetailPage.jsx:148-162 | The update is sent exactly when the dates pass the check, and it carries the form's values. Otherwise the check's message is shown. |
| TripPage.SentUpdateIsAccepted | frontend/frontend/src/pages/TripDetailPage.jsx:148-162 | What the page sends for the owner, the update route accepts, and the stored dates are the form's. |
| TripPage.AppendIdeas | frontend/frontend/src/pages/TripDetailPage.jsx:69 | An empty plan becomes the ideas. Otherwise the old plan is kept in front, followed by a blank line and the ideas. |
| TripPage.AppendAllIsJoin | frontend/frontend/src/pages/TripDetailPage.jsx:69 | From an empty plan, successive non-empty ideas build the ideas joined by blank lines. |
| TripPage.RecommendationExtendsPlan | frontend/frontend/src/pages/TripDetailPage.jsx:65-69 | A successful recommendation never blanks the plan. The old plan stays in front and the new ideas end it. |
| TripPage.OwnerControls | frontend/frontend/src/pages/TripDetailPage.jsx:270 | The edit and invite controls are shown to the owner only. |
| TripPage.RemoveControl | frontend/frontend/src/pages/TripDetailPage.jsx:471 | A Remove button is never shown on the owner's card. |
| TripPage.ControlsAgreeWithRoutes | frontend/frontend/src/pages/TripDetailPage.jsx:471 | A Remove button is shown exactly when the route would perform the removal. A viewer without the owner controls of line 270 is refused update, invite and delete. |
| FlightTab.Capture | frontend/frontend/src/components/Flights/FlightTab.jsx:84-85 | A capture is a non-empty run of digits that occurs in the text followed by the unit letter. There is no capture when the letter is absent. |
| FlightTab.CaptureLeadingRun | frontend/frontend/src/components/Flights/FlightTab.jsx:84-85 | A run of digits followed at once by the unit letter is captured. |
| FlightTab.CaptureSkipsRun | frontend/frontend/src/components/Flights/FlightTab.jsx:84-85 | A run of digits followed by another non-digit is not captured, and the search resumes after it. |
| FlightTab.CaptureSkipsChar | frontend/frontend/src/components/Flights/FlightTab.jsx:84-85 | A leading non-digit is skipped. |
| FlightTab.CaptureAfterPrefix | frontend/frontend/src/components/Flights/FlightTab.jsx:84-85 | In `PT` followed by digits and the unit letter, those digits are captured. |
| FlightTab.FormatHoursAndMinutes | frontend/frontend/src/components/Flights/FlightTab.jsx:83-87 | `PT<h>H<m>M` is shown as `<h>h <m>m`, with the digits as written. |
| FlightTab.FormatHoursOnly | frontend/frontend/src/components/Flights/FlightTab.jsx:83-87 | `PT<h>H` is shown with zero minutes. |
| FlightTab.FormatMinutesOnly | frontend/frontend/src/components/Flights/FlightTab.jsx:83-87 | `PT<m>M` is shown with zero hours. |
| FlightTab.DestinationPrefill | frontend/frontend/src/components/Flights/FlightTab.jsx:24 | The prefill is trimmed and holds no comma. |
| FlightTab.DestinationPrefillIsTextBeforeComma | frontend/frontend/src/components/Flights/FlightTab.jsx:24 | The prefill is the trimmed text before the first comma, or the whole destination trimmed when there is no comma. |
| FlightTab.DatePart | frontend/frontend/src/components/Flights/FlightTab.jsx:41-42 | The date part is a prefix of the timestamp without a 'T'. |
| FlightTab.DatePartOfTimestamp | frontend/frontend/src/components/Flights/FlightTab.jsx:41-42 | A timestamp `<date>T<time>` yields its `<date>`. |
| FlightTab.LookupAllowed | frontend/frontend/src/components/Flights/FlightTab.jsx:60-63 | The lookup runs exactly when a value of at least three characters is present. It does not trim. |
| FlightTab.StopLabel | frontend/frontend/src/components/Flights/FlightTab.jsx:284-286 | "Direct" exactly for zero stops. |
| FlightTab.StopLabelReadsBack | frontend/frontend/src/components/Flights/FlightTab.jsx:284-286 | For one or more stops the label starts with the count's decimal digits, which read back as the count, followed by " stop" or " stops" (plural exactly above one). |
| Flights.GetToken | backend/routes/flights.js:16-42 | A valid cached token is returned without asking the service. Otherwise a granted token is cached until one minute before its lapse, and a failed call leaves the cache as it was. |
| Flights.CacheValidWindow | backend/routes/flights.js:17 | A cached token is valid only with a non-empty token and a non-zero expiry, then exactly before the expiry; once lapsed it stays lapsed. |
| Flights.TokenReusedUntilEarlyExpiry | backend/routes/flights.js:17-36 | A token granted at t0 is reused by every call before `t0 + expires_in·1000 − 60000`. From then on, every call asks the service again. |
| Flights.ReusedTokenKeepsMargin | backend/routes/flights.js:17-36 | A reused token always has more than the one-minute margin left before the service's own expiry. |
| Flights.EmptyTokenNeverReused | backend/routes/flights.js:17-35 | An empty token is cached but never counts as valid. |
| Flights.AirportCode | backend/routes/flights.js:56-57 | The code has at most three characters: the upper-cased first characters of the input. |
| Flights.AirportCodeIdempotent | backend/routes/flights.js:56-57 | Normalising a normalised code changes nothing. |
| Flights.SearchQuery | backend/routes/flights.js:46-65 | A missing or empty origin, destination or departure date is a 400. Otherwise the codes are normalised, adults default to 1 and class to ECONOMY, nonStop is false, max is 10, and a return date is sent exactly when one is given. |
| Flights.SearchQueryIdempotent | backend/routes/flights.js:46-65 | Feeding a query's own values back as a body gives the same query. |
| Flights.Search | backend/routes/flights.js:44-84 | The guard runs before the token fetch, so a rejected body leaves the cache alone. A service 400 is passed on as a 400. A failed token fetch or any other service failure is a 500. Success returns the offers, or none when the reply has no data. |
| Flights.RejectedSearchTouchesNothing | backend/routes/flights.js:49-53 | A rejected search answers the same whatever the services would say. A search with a valid cached token never changes the cache. |
| Flights.Price | backend/routes/flights.js:87-116 | A missing offer is a 400 and is the only 400. Every later failure is a 500. Success returns the first priced offer, if any. With an offer, the token cache afterwards is the one the token step leaves. |
| Flights.ServiceRejectionMapping | backend/routes/flights.js:76-116 | A service 400 is a 400 for a search but a 500 for a price. |
| Server.OriginSource | backend/server.js:26 | FRONTEND_URLS when set and non-empty, else FRONTEND_URL when set and non-empty, else `http://localhost:5173`. |
| Text.Split | backend/server.js:27 | There is always at least one piece and no piece holds the separator; with Text.JoinSplit, joining the pieces gives the text back. |
| Text.JoinSplit | backend/server.js:27 | Joining the pieces of a split on the same character gives back the text. |
| Text.Trim | backend/server.js:28 | The result is a contiguous middle of the text whose removed ends are whitespace, and it neither starts nor ends with whitespace. |
| Text.Join | frontend/frontend/src/components/Map/MapTab.jsx:208 | The parts in order with one separator between neighbours: the length is the parts' lengths plus the separators, and the join starts with the first part. |
| Text.Upper | backend/routes/flights.js:56-57 | Same length, each lower-case ASCII letter raised and every other character kept. |
| Server.AllowList | backend/server.js:26-29 | Every allowed origin is non-empty, trimmed and free of commas. |
| Server.AllowListMembers | backend/server.js:26-29 | A string is allowed exactly when it is non-empty and some comma-separated piece of the source trims to it. |
| Server.AllowListOfJoinedEntries | backend/server.js:26-29 | Trimmed, non-empty, comma-free origins written comma-separated read back as exactly those origins, in order. |
| Server.DefaultAllowsLocalFrontendOnly | backend/server.js:26-29 | With neither variable set, only `http://localhost:5173` is listed. |
| Server.OriginAllowed | backend/server.js:32-37 | A request without an origin is admitted. A request with a non-empty origin is admitted exactly when that origin is listed verbatim. |
| Server.OriginDecision | backend/server.js:26-37 | Against the server's own list, an origin is admitted exactly when it is empty or listed. One with surrounding blanks or a comma is never admitted. |
| Server.SessionCookie | backend/server.js:55-60 | The cookie lasts one week and is httpOnly. It is secure, and sameSite none rather than lax, exactly in production. |
| Server.CrossSiteCookieIsSecure | backend/server.js:55-60 | A sameSite-none cookie is always secure, and the week is 604800000 ms. |

## Left out

- Time zones and daylight saving time. `toDateString` and the `setDate`
  day steps are taken in UTC, with one day = 86400000 ms. Candidate dates
  of a trip that does not start at midnight are instants, as in the code.
- Storage: MongoDB persistence, `populate`, ObjectId casts, the
  `timestamps` bookkeeping beyond `createdAt`/`updatedAt`, and concurrent
  upserts on one key. The unique index is the key of the record map.
- The Trip model file is not part of this model. Trips carry only the
  fields the routes read and write.
- Network clients: the Amadeus, OpenAI, Google Places and Nominatim
  calls. Their replies are parameters, and prompt building and response
  shapes beyond the fields used are omitted.
- Express plumbing: routing, sessions, `requireAuth`, and the 404 and error
  middleware. Neither server file mounts the flight router, and the
  client's `/flights/lookup` has no handler here. The flight routes are
  modelled as the router defines them.
- Coordinates are opaque reals. Floating point and `Number` casts of
  strings are not modelled.
- Non-string request values, such as an object in a string field and
  `null` notes on update. The enum names are compared as strings, and
  `toUpperCase` and `trim` handle ASCII letters and the usual whitespace
  only.
- `parseInt` of the adult count: `Flights.SearchBody` holds the integer it
  yields, and a non-integer value is not modelled.
- The colour and label tables are looked up by enum name. JavaScript
  object keys such as `constructor` are not modelled.
- Trips.ListTrips: returns the set of listed trips, without the newest-first
  `sort({ createdAt: -1 })` of backend/routes/trips.js:20. A trip's
  `createdAt` comes from the Trip schema, which is not part of this model.
- MapTab.SearchAllowed: the early return of `handleSearch` while the map
  has not loaded (`!mapRef.current`, MapTab.jsx:169) is not modelled. The
  decision is the length test that follows it.
- FlightTab.LookupAllowed, MapTab.SearchAllowed and Flights.AirportCode
  count characters as Unicode scalar values, while JavaScript's `length`
  and `substring` count UTF-16 code units. Text outside the Basic
  Multilingual Plane is longer in JavaScript: `"😀😀"` has length 4 and
  passes the lookup guard there but not here, and `substring(0, 3)` can
  split a surrogate pair.
- The order MongoDB returns pins with equal `createdAt` is unspecified. The
  model lists them in store order through a stable sort.
- Pin update does not check that the caller still belongs to the trip,
  only that they created the pin. The model keeps that.
- Rendering, dialogs, loading flags, `formatTime` and `formatDate`.
- FlightTab.FormatDuration carries no contract of its own. Its behaviour is
  stated by the lemmas about it, and the digit scan it uses is Capture.
