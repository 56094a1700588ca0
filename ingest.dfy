/** The normalisation inside `clean_and_save_data_from_api` (app.py): the
    feed's features are projected to flat records, the report date is parsed
    from epoch milliseconds, rows without a date or coordinates are dropped,
    and the calendar fields and the weapon category are derived. Fetching the
    feed and writing the CSV file are not part of this model: the response
    arrives as a parameter and the table is returned. */
module Ingest {
  import opened Wrappers
  import opened Incidents
  import opened Calendar
  import opened Weapons

  /** What a feature holds under "attributes" or "geometry": nothing, a JSON
      object, or another JSON value (such as null). */
  datatype Member = Missing | Object(fields: map<string, Value>) | NotObject

  /** One element of the response's "features" list. */
  datatype Feature = Feature(attributes: Member, geometry: Member)

  /** The decoded response; `features` is None when the key is absent. */
  datatype Response = Response(features: Option<seq<Feature>>)

  /** One entry of `records` before the DataFrame is built. */
  datatype Record = Record(
    latitude: Value,
    longitude: Value,
    incidentDate: Value,
    npa: Value,
    weapon: Value,
    age: Value,
    gender: Value,
    race: Value)

  /** `feature.get(key, {})`, as far as `.get` can be called on it: a member
      that is not an object raises AttributeError at the first `.get`. */
  function Fields(m: Member, key: string): (r: Result<map<string, Value>, Error>)
    ensures r.Err? <==> m.NotObject?
    ensures m.Missing? ==> r == Ok(map[])
    ensures m.Object? ==> r == Ok(m.fields)
    ensures r.Err? ==> r.error == NotAnObject(key)
  {
    match m
    case Missing => Ok(map[])
    case Object(fields) => Ok(fields)
    case NotObject => Err(NotAnObject(key))
  }

  /** `d.get(key)`: a missing key gives None. */
  function Get(d: map<string, Value>, key: string): Value {
    if key in d then d[key] else Null
  }

  /** The record built for one feature. The dictionary literal reads the
      geometry ("Latitude") before the attributes, so a geometry that is not
      an object is reported first. */
  function Project(f: Feature): (r: Result<Record, Error>)
    ensures r.Err? <==> f.attributes.NotObject? || f.geometry.NotObject?
    ensures r.Err? ==> r.error.NotAnObject?
  {
    var attr := Fields(f.attributes, "attributes");
    var geom :- Fields(f.geometry, "geometry");
    var attr :- attr;
    Ok(Record(Get(geom, "y"), Get(geom, "x"), Get(attr, "DATE_REPORTED"), Get(attr, "NPA"),
              Get(attr, "WEAPON"), Get(attr, "AGE"), Get(attr, "GENDER"), Get(attr, "RACE_ETHNICITY")))
  }

  /** The map a member gives `.get`: its fields, or nothing when absent. */
  function FieldsOrEmpty(m: Member): map<string, Value> {
    if m.Object? then m.fields else map[]
  }

  /** Latitude and longitude are the geometry's "y" and "x", the other
      fields are the attributes' "DATE_REPORTED", "NPA", "WEAPON", "AGE",
      "GENDER" and "RACE_ETHNICITY", each null when its key or its whole
      member is absent; a feature without attributes and geometry gives a
      record of nulls, and a geometry that is not an object is the error
      reported. */
  lemma ProjectCases(f: Feature)
    ensures !f.attributes.NotObject? && !f.geometry.NotObject? ==>
              var a := FieldsOrEmpty(f.attributes);
              var g := FieldsOrEmpty(f.geometry);
              Project(f) == Ok(Record(
                if "y" in g then g["y"] else Null,
                if "x" in g then g["x"] else Null,
                if "DATE_REPORTED" in a then a["DATE_REPORTED"] else Null,
                if "NPA" in a then a["NPA"] else Null,
                if "WEAPON" in a then a["WEAPON"] else Null,
                if "AGE" in a then a["AGE"] else Null,
                if "GENDER" in a then a["GENDER"] else Null,
                if "RACE_ETHNICITY" in a then a["RACE_ETHNICITY"] else Null))
    ensures f.attributes.Missing? && f.geometry.Object? ==>
              var g := f.geometry.fields;
              Project(f) == Ok(Record(if "y" in g then g["y"] else Null, if "x" in g then g["x"] else Null,
                                     Null, Null, Null, Null, Null, Null))
    ensures f.geometry.NotObject? ==> Project(f) == Err(NotAnObject("geometry"))
    ensures f.attributes.Missing? && f.geometry.Missing? ==>
              Project(f) == Ok(Record(Null, Null, Null, Null, Null, Null, Null, Null))
  {
  }

  /** The projection loop over `features`, stopping at the first failure. */
  function ProjectAll(features: seq<Feature>): (r: Result<seq<Record>, Error>)
    ensures r.Err? ==> r.error.NotAnObject?
    decreases |features|
  {
    if features == [] then Ok([])
    else
      var init :- ProjectAll(features[..|features| - 1]);
      var last :- Project(features[|features| - 1]);
      Ok(init + [last])
  }

  /** Feature `k` is the first whose projection fails. */
  predicate FirstFailure(features: seq<Feature>, k: int) {
    0 <= k < |features| && Project(features[k]).Err?
    && forall j :: 0 <= j < k ==> Project(features[j]).Ok?
  }

  /** Each feature gives exactly one record, in order; otherwise the error
      is that of the first feature that fails. */
  lemma {:induction false} ProjectAllSpec(features: seq<Feature>)
    ensures ProjectAll(features).Ok? <==> forall k :: 0 <= k < |features| ==> Project(features[k]).Ok?
    ensures ProjectAll(features).Ok? ==>
              |ProjectAll(features).value| == |features|
              && forall k :: 0 <= k < |features| ==> ProjectAll(features).value[k] == Project(features[k]).value
    ensures forall k :: FirstFailure(features, k) ==> ProjectAll(features) == Err(Project(features[k]).error)
    decreases |features|
  {
    if features != [] {
      var n := |features| - 1;
      var init := features[..n];
      ProjectAllSpec(init);
      assert forall k :: 0 <= k < n ==> init[k] == features[k];
      forall k | FirstFailure(features, k) && k < n
        ensures FirstFailure(init, k)
      {
      }
    }
  }

  /** Once a prefix of the features fails, the whole loop fails the same way. */
  lemma {:induction false} ProjectAllFailureStays(features: seq<Feature>, i: nat)
    requires i <= |features| && ProjectAll(features[..i]).Err?
    ensures ProjectAll(features) == ProjectAll(features[..i])
    decreases |features| - i
  {
    if i < |features| {
      assert features[..i + 1][..i] == features[..i];
      ProjectAllFailureStays(features, i + 1);
    } else {
      assert features[..i] == features;
    }
  }

  /** `pd.to_datetime(value, unit="ms", errors="coerce")`: a number of
      milliseconds since 1970-01-01 becomes a timestamp when its nanosecond
      count fits pandas' 64-bit range, and anything else becomes NaT (None).
      A float keeps its whole milliseconds, rounded down. */
  function ParseDate(v: Value): (r: Option<int>)
    ensures r.Some? ==> -MaxMs <= r.value <= MaxMs
    ensures v.Int? ==> (r.Some? <==> -MaxMs <= v.i <= MaxMs)
    ensures v.Int? && r.Some? ==> r.value == v.i
    ensures v.Float? ==> (r.Some? <==> -MaxMs as real <= v.f <= MaxMs as real)
    ensures v.Float? && r.Some? ==> r.value == v.f.Floor
    ensures !v.Int? && !v.Float? ==> r.None?
  {
    match v
    case Int(i) => if -MaxMs <= i <= MaxMs then Some(i) else None
    case Float(f) => if -MaxMs as real <= f <= MaxMs as real then Some(f.Floor) else None
    case _ => None
  }

  /** A record survives `dropna(subset=[...])`: its date parsed and both
      coordinates are present. */
  predicate Survives(r: Record) {
    ParseDate(r.incidentDate).Some? && r.latitude != Null && r.longitude != Null
  }

  /** The row a surviving record becomes: the parsed date, the calendar
      fields of that instant, and the simplified weapon. */
  function Derive(r: Record, ms: int): Incident {
    var days := DayNumber(ms);
    var d := CivilFromDays(days);
    Incident(r.latitude, r.longitude, ms, r.npa, r.weapon, r.age, r.gender, r.race,
             d.year, d.month, WeekdayOf(days), HourOf(ms), SimplifyWeapon(r.weapon))
  }

  /** The row of a surviving record. */
  function Row(r: Record): Incident
    requires Survives(r)
  {
    Derive(r, ParseDate(r.incidentDate).value)
  }

  /** The rows one record contributes: none when it is dropped. */
  function Clean(r: Record): (rows: seq<Incident>)
    ensures |rows| <= 1
    ensures rows != [] <==> Survives(r)
  {
    if Survives(r) then [Row(r)] else []
  }

  /** The cleaned table: the surviving records' rows, in order. */
  function CleanAll(records: seq<Record>): seq<Incident>
    decreases |records|
  {
    if records == [] then []
    else CleanAll(records[..|records| - 1]) + Clean(records[|records| - 1])
  }

  /** `clean_and_save_data_from_api` without the fetch and the write: a
      response without "features" is a ValueError; an empty feature list
      builds a DataFrame without columns, so reading "Incident_Date" is a
      KeyError; otherwise the cleaned table. */
  function NormalizeSpec(response: Response): Result<seq<Incident>, Error> {
    match response.features
    case None => Err(MissingFeatures)
    case Some(features) =>
      var records :- ProjectAll(features);
      if records == [] then Err(MissingColumn("Incident_Date")) else Ok(CleanAll(records))
  }

  /** The normalisation, step by step: the projection loop appending to
      `records`, then the date parse, the drop and the derived columns,
      applied row by row. */
  method Normalize(response: Response) returns (result: Result<seq<Incident>, Error>)
    ensures result == NormalizeSpec(response)
  {
    if response.features.None? {
      return Err(MissingFeatures);
    }
    var features := response.features.value;
    var records: seq<Record> := [];
    var i := 0;
    while i < |features|
      invariant 0 <= i <= |features|
      invariant ProjectAll(features[..i]) == Ok(records)
    {
      var record := Project(features[i]);
      assert features[..i + 1][..i] == features[..i];
      if record.Err? {
        ProjectAllFailureStays(features, i + 1);
        return Err(record.error);
      }
      records := records + [record.value];
      i := i + 1;
    }
    assert features[..i] == features;
    if records == [] {
      return Err(MissingColumn("Incident_Date"));
    }
    var rows: seq<Incident> := [];
    var j := 0;
    while j < |records|
      invariant 0 <= j <= |records|
      invariant rows == CleanAll(records[..j])
    {
      var record := records[j];
      assert records[..j + 1][..j] == records[..j];
      var date := ParseDate(record.incidentDate);
      if date.Some? && record.latitude != Null && record.longitude != Null {
        rows := rows + [Derive(record, date.value)];
      }
      j := j + 1;
    }
    assert records[..j] == records;
    return Ok(rows);
  }

  /** The cleaned table of a concatenation is the concatenation of the
      cleaned tables: rows keep the order of their features. */
  lemma {:induction false} CleanAllAppend(a: seq<Record>, b: seq<Record>)
    ensures CleanAll(a + b) == CleanAll(a) + CleanAll(b)
    decreases |b|
  {
    if b == [] {
      assert a + b == a;
    } else {
      var n := |b| - 1;
      assert (a + b)[..|a + b| - 1] == a + b[..n];
      CleanAllAppend(a, b[..n]);
    }
  }

  /** No more rows than records, and no more than one per record. */
  lemma {:induction false} CleanAllLength(records: seq<Record>)
    ensures |CleanAll(records)| <= |records|
    decreases |records|
  {
    if records != [] {
      CleanAllLength(records[..|records| - 1]);
    }
  }

  /** The row `x` is the row derived from the record `r`: `x` keeps the
      record's fields, holds its parsed date, and its calendar fields and
      weapon category are those of that date and that weapon text. */
  predicate RowOf(x: Incident, r: Record) {
    Survives(r)
    && x.latitude == r.latitude && x.longitude == r.longitude && x.npa == r.npa
    && x.weapon == r.weapon && x.age == r.age && x.gender == r.gender && x.race == r.race
    && ParseDate(r.incidentDate) == Some(x.incidentDate)
    && WellFormed(x)
  }

  /** What every row of the cleaned table satisfies, stated with the
      calendar's day count rather than the date search: the date is in
      pandas' range, the coordinates are present, the date's day falls in the
      row's month of the row's year, the weekday counts from Monday = 0, the
      hour is that of the instant, and the category is the weapon text's. */
  predicate WellFormed(x: Incident) {
    var days := DayNumber(x.incidentDate);
    -MaxMs <= x.incidentDate <= MaxMs
    && x.latitude != Null && x.longitude != Null
    && 1 <= x.month <= 12
    && DaysFromCivil(Date(x.year, x.month, 1)) <= days
    && days < DaysFromCivil(Date(x.year, x.month, 1)) + DaysInMonth(x.year, x.month)
    && x.weekday == WeekdayOf(days)
    && x.hour == HourOf(x.incidentDate)
    && x.weaponSimplified == SimplifyWeapon(x.weapon)
  }

  /** The derived row satisfies the row description. */
  lemma DeriveIsRowOf(r: Record)
    requires Survives(r)
    ensures RowOf(Row(r), r)
  {
    var ms := ParseDate(r.incidentDate).value;
    var d := CivilFromDays(DayNumber(ms));
    assert DaysFromCivil(Date(d.year, d.month, 1)) == DaysFromCivil(d) - d.day + 1;
  }

  /** The row description determines the row: there is exactly one row for
      each surviving record. */
  lemma RowOfUnique(x: Incident, r: Record)
    requires RowOf(x, r)
    ensures x == Row(r)
  {
    var days := DayNumber(x.incidentDate);
    var first := Date(x.year, x.month, 1);
    var mine := Date(x.year, x.month, days - DaysFromCivil(first) + 1);
    assert ValidDate(mine) && DaysFromCivil(mine) == days;
    var theirs := CivilFromDays(days);
    DaysFromCivilInjective(mine, theirs);
  }

  /** Every row of the cleaned table comes from one surviving record. */
  lemma {:induction false} CleanAllSources(records: seq<Record>)
    ensures forall x :: x in CleanAll(records) ==> exists k :: 0 <= k < |records| && RowOf(x, records[k])
    decreases |records|
  {
    if records != [] {
      var n := |records| - 1;
      var init := records[..n];
      CleanAllSources(init);
      forall x | x in CleanAll(records)
        ensures exists k :: 0 <= k < |records| && RowOf(x, records[k])
      {
        if x in CleanAll(init) {
          var k :| 0 <= k < |init| && RowOf(x, init[k]);
          assert init[k] == records[k];
        } else {
          assert x == Row(records[n]);
          DeriveIsRowOf(records[n]);
        }
      }
    }
  }

  /** Every surviving record gives a row of the cleaned table. */
  lemma {:induction false} CleanAllComplete(records: seq<Record>)
    ensures forall k :: 0 <= k < |records| && Survives(records[k]) ==> Row(records[k]) in CleanAll(records)
    decreases |records|
  {
    if records != [] {
      var n := |records| - 1;
      var init := records[..n];
      CleanAllComplete(init);
      assert forall k :: 0 <= k < n ==> init[k] == records[k];
    }
  }

  /** Every row of the cleaned table is well formed. */
  lemma CleanAllWellFormed(records: seq<Record>)
    ensures forall x :: x in CleanAll(records) ==> WellFormed(x)
  {
    CleanAllSources(records);
  }

  /** When every record survives, row `k` is record `k`'s row. */
  lemma {:induction false} CleanAllKeepsAll(records: seq<Record>)
    requires forall k :: 0 <= k < |records| ==> Survives(records[k])
    ensures |CleanAll(records)| == |records|
    ensures forall k :: 0 <= k < |records| ==>
              CleanAll(records)[k] == Row(records[k])
    decreases |records|
  {
    if records != [] {
      var n := |records| - 1;
      var init := records[..n];
      var last := records[n];
      assert forall k :: 0 <= k < n ==> init[k] == records[k];
      CleanAllKeepsAll(init);
      var before := CleanAll(init);
      var all := CleanAll(records);
      var row := Row(last);
      assert Clean(last) == [row];
      assert all == before + [row];
      forall k | 0 <= k < |records|
        ensures all[k] == Row(records[k])
      {
        if k < n {
          assert all[k] == before[k];
          assert before[k] == Row(init[k]);
        }
      }
    }
  }


  /** When no record survives, the table is empty, which is not an error. */
  lemma {:induction false} CleanAllDropsAll(records: seq<Record>)
    requires forall k :: 0 <= k < |records| ==> !Survives(records[k])
    ensures CleanAll(records) == []
    decreases |records|
  {
    if records != [] {
      var n := |records| - 1;
      var init := records[..n];
      assert forall k :: 0 <= k < n ==> init[k] == records[k];
      CleanAllDropsAll(init);
    }
  }

  /** The outcomes of the normalisation: the missing key, the empty list and
      a failing feature are errors; otherwise at most one row per feature,
      each well formed. */
  lemma NormalizeOutcomes(response: Response)
    ensures response.features.None? <==> NormalizeSpec(response) == Err(MissingFeatures)
    ensures response.features == Some([]) ==> NormalizeSpec(response) == Err(MissingColumn("Incident_Date"))
    ensures NormalizeSpec(response).Ok? ==>
              response.features.Some? && 1 <= |response.features.value|
              && |NormalizeSpec(response).value| <= |response.features.value|
              && forall x :: x in NormalizeSpec(response).value ==> WellFormed(x)
    ensures response.features.Some? && response.features.value != [] ==>
              (NormalizeSpec(response).Ok? <==>
                forall k :: 0 <= k < |response.features.value| ==> Project(response.features.value[k]).Ok?)
  {
    if response.features.Some? {
      var features := response.features.value;
      ProjectAllSpec(features);
      if ProjectAll(features).Ok? {
        CleanAllLength(ProjectAll(features).value);
        CleanAllWellFormed(ProjectAll(features).value);
      }
    }
  }
}
