/** One feed feature carried through the normalisation: a gun homicide
    reported at 10:00 on Monday 2 January 2023.
    Several lemmas take the example's text or number as a parameter with a
    `requires` fixing its value (`requires s == "gun"`) rather than writing the
    literal into the `ensures`: with a literal argument the verifier unfolds
    the recursive functions on the constant eagerly, which makes the proofs
    far more expensive. */
module IngestExamples {
  import opened Wrappers
  import opened Incidents
  import opened Calendar
  import opened Weapons
  import opened WeaponExamples
  import opened Ingest

  /** 2023-01-02T10:00 in epoch milliseconds falls on day 19359, hour 10. */
  lemma MondayMorning(ms: int)
    requires ms == 1_672_653_600_000
    ensures DayNumber(ms) == 19_359 && HourOf(ms) == 10
  {
    assert ms == 19_359 * MsPerDay + 10 * MsPerHour;
  }

  /** The calendar fields of that instant. */
  lemma MondayMorningFields(ms: int)
    requires ms == 1_672_653_600_000
    ensures CivilFromDays(DayNumber(ms)) == Date(2023, 1, 2)
    ensures WeekdayOf(DayNumber(ms)) == 0
  {
    MondayMorning(ms);
    SecondOfJanuary2023();
    Day19359(DaysFromCivil(Date(2023, 1, 2)));
  }

  /** Any record with that date and the weapon text "gun" gets the
      calendar fields 2023, January, Monday, 10 o'clock and the category Gun. */
  lemma MondayMorningDerive(r: Record, ms: int, weapon: string)
    requires ms == 1_672_653_600_000 && weapon == "gun" && r.weapon == Str(weapon)
    ensures Derive(r, ms) == Incident(r.latitude, r.longitude, ms, r.npa, r.weapon,
                                      r.age, r.gender, r.race, 2023, 1, 0, 10, Incidents.Gun)
  {
    MondayMorning(ms);
    MondayMorningFields(ms);
    WeaponExamples.Gun(weapon);
  }

  /** A record with coordinates, that date and the weapon text "gun"
      survives and becomes a 2023, January, Monday, 10 o'clock, Gun row. */
  lemma MondayMorningRow(r: Record, ms: int, weapon: string)
    requires ms == 1_672_653_600_000 && weapon == "gun"
    requires r.latitude == Float(35.2) && r.longitude == Float(-80.8)
    requires r.incidentDate == Int(ms) && r.weapon == Str(weapon)
    ensures Survives(r)
    ensures Row(r) == Incident(Float(35.2), Float(-80.8), ms, r.npa, Str(weapon),
                               r.age, r.gender, r.race, 2023, 1, 0, 10, Incidents.Gun)
  {
    assert ParseDate(r.incidentDate) == Some(ms);
    assert Row(r) == Derive(r, ms);
    MondayMorningDerive(r, ms, weapon);
  }

  /** One feature that projects gives one record. */
  lemma ProjectAllSingle(f: Feature)
    requires Project(f).Ok?
    ensures ProjectAll([f]) == Ok([Project(f).value])
  {
    ProjectAllSpec([f]);
    assert ProjectAll([f]).value == [Project(f).value];
  }

  /** One surviving record gives one row. */
  lemma CleanAllSingle(r: Record)
    requires Survives(r)
    ensures CleanAll([r]) == [Row(r)]
  {
    var none: seq<Record> := [];
    assert [r][..0] == none;
  }

  /** A response with one feature whose record survives normalises to that
      record's row. */
  lemma NormalizeSingle(response: Response, f: Feature)
    requires response == Response(Some([f]))
    requires Project(f).Ok? && Survives(Project(f).value)
    ensures NormalizeSpec(response) == Ok([Row(Project(f).value)])
  {
    ProjectAllSingle(f);
    CleanAllSingle(Project(f).value);
  }

  /** The feature's record: coordinates from the geometry, the date and the
      weapon from the attributes, nulls elsewhere. */
  lemma MondayMorningRecord(f: Feature, ms: int, weapon: string)
    requires f.attributes == Object(map["DATE_REPORTED" := Int(ms), "WEAPON" := Str(weapon)])
    requires f.geometry == Object(map["x" := Float(-80.8), "y" := Float(35.2)])
    ensures Project(f).Ok?
    ensures Project(f).value.latitude == Float(35.2) && Project(f).value.longitude == Float(-80.8)
    ensures Project(f).value.incidentDate == Int(ms) && Project(f).value.weapon == Str(weapon)
    ensures Project(f).value.npa == Null && Project(f).value.age == Null
    ensures Project(f).value.gender == Null && Project(f).value.race == Null
  {
    ProjectCases(f);
  }

  /** A response holding that one feature normalises to a one-row table; the
      attributes the feature lacks are null in the row. */
  lemma OneFeature(response: Response, f: Feature, ms: int, weapon: string)
    requires ms == 1_672_653_600_000 && weapon == "gun"
    requires f.attributes == Object(map["DATE_REPORTED" := Int(ms), "WEAPON" := Str(weapon)])
    requires f.geometry == Object(map["x" := Float(-80.8), "y" := Float(35.2)])
    requires response == Response(Some([f]))
    ensures NormalizeSpec(response) == Ok([Incident(Float(35.2), Float(-80.8), ms, Null, Str(weapon),
                                                    Null, Null, Null, 2023, 1, 0, 10, Incidents.Gun)])
  {
    MondayMorningRecord(f, ms, weapon);
    MondayMorningRow(Project(f).value, ms, weapon);
    NormalizeSingle(response, f);
  }
}
