/** The cases the repository's unit tests check for `filter_data`
    (tests/test_utils.py), on their three-row table.
    Several lemmas take the example's text or number as a parameter with a
    `requires` fixing its value (`requires s == "gun"`) rather than writing the
    literal into the `ensures`: with a literal argument the verifier unfolds
    the recursive functions on the constant eagerly, which makes the proofs
    far more expensive. */
module FilterExamples {
  import opened Wrappers
  import opened Incidents
  import opened Labels
  import opened Filtering

  /** A test row: only Year, Month, Weekday, Weapon and the coordinates are
      set; the other columns are null. */
  function TestRow(year: int, month: int, weekday: int, weapon: string, lat: real, lon: real): Incident {
    Incident(Float(lat), Float(lon), 0, Null, Str(weapon), Null, Null, Null,
             year, month, weekday, 0, Other)
  }

  function Table(): seq<Incident> {
    [TestRow(2022, 1, 0, "Gun", 35.2, -80.8),
     TestRow(2023, 2, 1, "Knife", 35.3, -80.9),
     TestRow(2023, 1, 0, "Gun", 35.2, -80.8)]
  }

  /** No arguments: all three rows. */
  lemma FilterAll()
    ensures FilterData(Table(), All, "All", "All", "All") == Ok(Table())
    ensures |Table()| == 3
  {
    FilterDataAllAll(Table());
  }

  /** Year 2022: exactly the first row. */
  lemma FilterYear2022(all: string)
    requires all == "All"
    ensures FilterData(Table(), Only(2022), all, all, all) == Ok([Table()[0]])
  {
    var t := Table();
    assert Where(t, YearIs(2022)) == [t[0]] by {
      assert Where(t[2..], YearIs(2022)) == [];
      assert Where(t[1..], YearIs(2022)) == [];
    }
  }

  lemma January(name: string)
    requires name == "January"
    ensures MonthNumber(name) == Ok(1)
  {
    MonthBijection(1, name);
    MonthNameExamples();
  }

  lemma Monday(name: string)
    requires name == "Monday"
    ensures WeekdayNumber(name) == Ok(0)
  {
    WeekdayBijection(0, name);
    WeekdayNameExamples();
  }

  lemma Year2023Rows()
    ensures Where(Table(), YearIs(2023)) == Table()[1..]
  {
    var t := Table();
    assert Where(t[2..], YearIs(2023)) == [t[2]];
    assert Where(t[1..], YearIs(2023)) == t[1..];
  }

  lemma January2023Rows(weapon: string)
    requires weapon == "Gun"
    ensures var byMonth := Where(Table()[1..], MonthIs(1));
            byMonth == [Table()[2]]
            && Where(byMonth, WeekdayIs(0)) == byMonth
            && Where(byMonth, WeaponIs(weapon)) == byMonth
  {
    var t := Table()[1..];
    assert Where(t[1..], MonthIs(1)) == [t[1]];
  }

  /** 2023, January, Monday, "Gun": exactly the third row. */
  lemma FilterCombined(month: string, weekday: string, weapon: string)
    requires month == "January" && weekday == "Monday" && weapon == "Gun"
    ensures FilterData(Table(), Only(2023), month, weekday, weapon) == Ok([Table()[2]])
  {
    var t := Table();
    January(month);
    Monday(weekday);
    assert MonthCriterion(month) == Ok(Some(MonthIs(1)));
    assert WeekdayCriterion(weekday) == Ok(Some(WeekdayIs(0)));
    assert WeaponCriterion(weapon) == Some(WeaponIs(weapon));
    Year2023Rows();
    January2023Rows(weapon);
    var byYear := Step(t, YearCriterion(Only(2023)));
    assert byYear == t[1..];
    var byMonth := Step(byYear, Some(MonthIs(1)));
    assert byMonth == [t[2]];
    assert Step(byMonth, Some(WeekdayIs(0))) == byMonth;
  }

  /** A year with no rows gives an empty table, not an error. */
  lemma FilterYear1999(all: string)
    requires all == "All"
    ensures FilterData(Table(), Only(1999), all, all, all) == Ok([])
  {
    var t := Table();
    assert Where(t[2..], YearIs(1999)) == [];
    assert Where(t[1..], YearIs(1999)) == [];
  }

  /** Names are matched exactly: a lower-case month name is an error. */
  lemma FilterUnknownMonth(all: string, month: string)
    requires all == "All" && month == "january"
    ensures FilterData(Table(), All, month, all, all) == Err(UnknownLabel(month))
  {
    assert month !in MonthNames by {
      assert forall k :: 0 <= k < |MonthNames| ==> MonthNames[k][0] != 'j';
    }
  }
}
