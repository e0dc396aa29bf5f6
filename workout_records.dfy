/**
 * Workout records as the server returns them, and the helpers that the
 * three statistics views share: the sport and intensity lists and the
 * label of the athlete a workout belongs to.
 */
module WorkoutRecords {
  import opened Wrappers
  import opened Time

  /** The `date` field of a record. `new Date(value)` is supplied by the
      platform's parser: `parsed` is the instant it reads from `text`. */
  datatype RawDate = Undefined | Null | DateText(text: string, parsed: Option<Instant>)

  /** `new Date(value)`, `None` for an invalid date: `undefined` and the
      empty string are invalid, `null` is the epoch. */
  function DateValue(d: RawDate): (r: Option<Instant>)
    ensures d.Undefined? ==> r.None?
    ensures d.Null? ==> r == Some(0)
    ensures d.DateText? && d.text == "" ==> r.None?
  {
    match d
    case Undefined => None
    case Null => Some(0)
    case DateText(text, parsed) => if text == "" then None else parsed
  }

  /** Whether the raw value is truthy (`if (w.date)`). */
  predicate DateGiven(d: RawDate) {
    d.DateText? && d.text != ""
  }

  /** The `user` field: absent, a plain string, an object with optional
      `name`, `username` and `email`, or some other value. */
  datatype UserRef = NoUser | UserText(text: string)
                   | UserRecord(name: Option<string>, username: Option<string>, email: Option<string>)
                   | OtherValue

  /** A workout. `duration` and `distance` are what `Number(field)` yields
      (`None` is `NaN`); `sport` and `intensity` are the raw strings. */
  datatype Workout = Workout(date: RawDate, duration: Option<int>, distance: Option<int>,
                             sport: Option<string>, intensity: Option<string>, user: UserRef)

  /** An entry of the server's list, which may be `null`. */
  type Item = Option<Workout>

  /** `workouts || []` */
  function Items(workouts: Option<seq<Item>>): seq<Item> {
    if workouts.Some? then workouts.value else []
  }

  const ALL_SPORTS: seq<string> := ["Rowing", "Cycling", "Weights", "Running", "Walking", "OTHER"]
  const INTENSITY_ORDER: seq<string> := ["Very Low", "Low", "Medium", "High", "Very High"]

  /** A string field is truthy. */
  predicate Filled(s: Option<string>) {
    s.Some? && s.value != ""
  }

  /** `memberLabel(u)` (and its copy `deriveUserLabel`): a non-empty string
      is its own label; an object is labelled by its name, else its
      username, else its email; everything else is "Unknown". */
  function UserLabel(u: UserRef): (r: string)
    ensures r != ""
    ensures u.UserText? && u.text != "" ==> r == u.text
    ensures u.UserRecord? && Filled(u.name) ==> r == u.name.value
    ensures u.UserRecord? && !Filled(u.name) && Filled(u.username) ==> r == u.username.value
    ensures u.UserRecord? && !Filled(u.name) && !Filled(u.username) && Filled(u.email) ==> r == u.email.value
    ensures u.NoUser? || u.OtherValue? || u == UserText("") ==> r == "Unknown"
    ensures u.UserRecord? && !Filled(u.name) && !Filled(u.username) && !Filled(u.email) ==> r == "Unknown"
  {
    match u
    case NoUser => "Unknown"
    case UserText(text) => if text != "" then text else "Unknown"
    case UserRecord(name, username, email) =>
      if Filled(name) then name.value
      else if Filled(username) then username.value
      else if Filled(email) then email.value
      else "Unknown"
    case OtherValue => "Unknown"
  }
}
