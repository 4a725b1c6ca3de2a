/** The availability record of backend/models/Availability.js: one member's
    vote on one day of one trip. The store is a finite map whose key is the
    schema's unique compound index `(tripId, userId, date)`, so at most one
    record per key exists by construction; the required fields are the key
    and the entry's fields, none of which can be missing. */
module AvailabilityModel {
  import opened Common

  /** The schema's status enum; "no response" is the absence of a record. */
  datatype Status = Can | Maybe | Cannot

  function StatusName(s: Status): string {
    match s
    case Can => "can"
    case Maybe => "maybe"
    case Cannot => "cannot"
  }

  /** The enum check of the schema and of the POST handler. */
  function ParseStatus(s: string): (r: Option<Status>)
    ensures r.Some? <==> (s == "can" || s == "maybe" || s == "cannot")
    ensures r.Some? ==> StatusName(r.value) == s
  {
    if s == "can" then Some(Can)
    else if s == "maybe" then Some(Maybe)
    else if s == "cannot" then Some(Cannot)
    else None
  }

  lemma ParseStatusName(s: Status)
    ensures ParseStatus(StatusName(s)) == Some(s)
  {
  }

  /** The unique index. `date` is the instant the handler built with
      `new Date(date)`; it is not normalised to midnight. */
  datatype Key = Key(trip: TripId, user: UserId, date: int)

  /** The non-key fields, with the schema's `timestamps` bookkeeping. */
  datatype Entry = Entry(status: Status, createdAt: int, updatedAt: int)

  type Store = map<Key, Entry>

  /** `findOneAndUpdate(key, {status}, {upsert: true})`: the record under
      `key` gets the new status and update time; it keeps its creation time
      when it already existed; no other record changes. */
  function Upsert(store: Store, key: Key, status: Status, now: int): (r: Store)
    ensures r.Keys == store.Keys + {key}
    ensures r[key].status == status && r[key].updatedAt == now
    ensures r[key].createdAt == (if key in store then store[key].createdAt else now)
    ensures forall k :: k in store && k != key ==> r[k] == store[k]
  {
    var created := if key in store then store[key].createdAt else now;
    store[key := Entry(status, created, now)]
  }

  /** `findOneAndDelete(key)`: removes the record when there is one. */
  function Delete(store: Store, key: Key): (r: Store)
    ensures r.Keys == store.Keys - {key}
    ensures forall k :: k in r ==> r[k] == store[k]
  {
    map k | k in store && k != key :: store[k]
  }

  /** `find({tripId})`: every record of the trip, whoever voted. */
  function OfTrip(store: Store, trip: TripId): (r: Store)
    ensures forall k :: k in r <==> k in store && k.trip == trip
    ensures forall k :: k in r ==> r[k] == store[k]
  {
    map k | k in store && k.trip == trip :: store[k]
  }

  /** Upserting the same key twice leaves the record of the second call,
      created at the time of the first. */
  lemma UpsertTwice(store: Store, key: Key, s1: Status, s2: Status, t1: int, t2: int)
    ensures Upsert(Upsert(store, key, s1, t1), key, s2, t2)
         == store[key := Entry(s2, if key in store then store[key].createdAt else t1, t2)]
  {
  }

  lemma DeleteIdempotent(store: Store, key: Key)
    ensures Delete(Delete(store, key), key) == Delete(store, key)
  {
  }
}
