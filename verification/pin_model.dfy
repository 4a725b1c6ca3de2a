/** The pin document of backend/models/Pin.js: a point on the trip map,
    placed by one member, optionally attached to a day of the trip. The
    schema's casts, trims, enum check and defaults are the functions below;
    a value they refuse makes `save()` throw, which the routes answer with
    a server error. */
module PinModel {
  import opened Common
  import opened Calendar
  import opened Text

  /** The category enum; `Other` is the default. */
  datatype Category = Restaurant | Attraction | Hotel | Activity | Other

  function CategoryName(c: Category): string {
    match c
    case Restaurant => "restaurant"
    case Attraction => "attraction"
    case Hotel => "hotel"
    case Activity => "activity"
    case Other => "other"
  }

  predicate IsCategoryName(s: string) {
    s == "restaurant" || s == "attraction" || s == "hotel" || s == "activity" || s == "other"
  }

  /** The schema's enum validator. */
  function ParseCategory(s: string): (r: Option<Category>)
    ensures r.Some? <==> IsCategoryName(s)
    ensures r.Some? ==> CategoryName(r.value) == s
  {
    if s == "restaurant" then Some(Restaurant)
    else if s == "attraction" then Some(Attraction)
    else if s == "hotel" then Some(Hotel)
    else if s == "activity" then Some(Activity)
    else if s == "other" then Some(Other)
    else None
  }

  lemma ParseCategoryName(c: Category)
    ensures ParseCategory(CategoryName(c)) == Some(c)
  {
  }

  /** A stored pin. Coordinates are kept as opaque reals; `day` is a UTC
      midnight or null; `createdAt` is the instant of creation. */
  datatype Pin = Pin(
    id: PinId,
    trip: TripId,
    creator: UserId,
    day: Option<int>,
    lat: real,
    lng: real,
    title: string,
    category: Category,
    notes: string,
    createdAt: int)

  /** What the schema guarantees of every saved pin: the title is trimmed
      and non-empty (required), the notes are trimmed, and the day, when
      set, is a midnight. */
  predicate ValidPin(p: Pin) {
    && Trimmed(p.title) && p.title != ""
    && Trimmed(p.notes)
    && (p.day.Some? ==> p.day.value % MsPerDay == 0)
  }

  /** A numeric request field: absent or falsy but not zero (`undefined`,
      `null`, `""`, `NaN`), a value that casts to a number, or a truthy
      value that does not. */
  datatype NumArg = NoNumber | Number(v: real) | NotNumeric

  /** JavaScript truthiness of a numeric field: zero is falsy. */
  predicate NumGiven(a: NumArg) {
    a.NotNumeric? || (a.Number? && a.v != 0.0)
  }

  /** The Number cast applied to a truthy field. */
  function CastNumber(a: NumArg): (r: Option<real>)
    requires NumGiven(a)
    ensures r.Some? <==> a.Number?
    ensures r.Some? ==> r.value == a.v && r.value != 0.0
  {
    if a.Number? then Some(a.v) else None
  }

  /** The trimmed title, or `None` when the `required` validator refuses
      what is left after trimming. */
  function CastTitle(s: string): (r: Option<string>)
    ensures r.None? <==> AllSpace(s)
    ensures r.Some? ==> r.value == Trim(s) && r.value != ""
  {
    TrimEmptyIffAllSpace(s);
    var t := Trim(s);
    if t == "" then None else Some(t)
  }

  /** A day field turned into the stored day: falsy is null, a date is its
      UTC midnight, and an unparseable date is refused by the Date cast. */
  function CastDay(d: DateArg): (r: Option<Option<int>>)
    ensures r.None? <==> d.Unparseable?
    ensures r == Some(None) <==> !DateGiven(d)
    ensures d.At? ==> r.Some? && r.value.Some? && r.value.value <= d.t < r.value.value + MsPerDay
    ensures r.Some? && r.value.Some? ==> r.value.value % MsPerDay == 0
  {
    match d
    case Omitted => Some(None)
    case Blank => Some(None)
    case Unparseable => None
    case At(t) => Some(Some(Midnight(t)))
  }

  /** A category field with the create route's default: a falsy value is
      "other"; anything else must be one of the names. */
  function CastCategory(c: Option<string>): (r: Option<Category>)
    ensures !Truthy(c) ==> r == Some(Other)
    ensures Truthy(c) ==> (r.Some? <==> IsCategoryName(c.value))
    ensures Truthy(c) && r.Some? ==> CategoryName(r.value) == c.value
  {
    if Truthy(c) then ParseCategory(c.value) else Some(Other)
  }
}
