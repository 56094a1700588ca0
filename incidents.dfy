/** The data the pipeline handles: scalar values as they arrive in the JSON
    feed, the three simplified weapon categories, one row of the normalised
    incident table, and the errors the source raises. */
module Incidents {

  /** A scalar as it appears in the feed's `attributes` and `geometry` maps;
      `Null` is JSON `null` (Python `None`). */
  datatype Value = Null | Int(i: int) | Float(f: real) | Str(s: string) | Bool(b: bool)

  /** The values of the `Weapon_Simplified` column. */
  datatype Category = Gun | Blade | Other

  /** The label the table stores for a category. */
  function CategoryName(c: Category): (name: string)
    ensures name in {"Gun", "Blade", "Other"}
  {
    match c
    case Gun => "Gun"
    case Blade => "Blade"
    case Other => "Other"
  }

  /** One row of the normalised table (the columns of `homicide_cleaned.csv`).
      `incidentDate` is the parsed timestamp in milliseconds since
      1970-01-01T00:00; the last five fields are derived from it and from
      `weapon` during normalisation. */
  datatype Incident = Incident(
    latitude: Value,
    longitude: Value,
    incidentDate: int,
    npa: Value,
    weapon: Value,
    age: Value,
    gender: Value,
    race: Value,
    year: int,
    month: int,
    weekday: int,
    hour: int,
    weaponSimplified: Category)

  /** The exceptions the modelled code raises. */
  datatype Error =
    | MissingFeatures          // ValueError: the response has no "features" key
    | MissingColumn(column: string)  // KeyError: a DataFrame column does not exist
    | UnknownLabel(name: string)     // IndexError: a label has no number in its table
    | KeyError(key: int)             // KeyError: a number has no label in its table
    | NotAnObject(member: string)    // AttributeError: `.get` on a feature member that is not an object
}
