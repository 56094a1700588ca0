/** The two pieces of page logic in app.py that compute on the table: the
    markers page's category selection, and the prediction tool's turning of
    the chosen month and weekday names back into numbers. */
module Views {
  import opened Wrappers
  import opened Incidents
  import opened Labels
  import opened Filtering

  /** The choices of the markers page's "Weapon Category" box. */
  const CategoryChoices: seq<string> := ["All", "Gun", "Blade", "Other"]

  /** `df[df["Weapon_Simplified"] == weapon_filter]`, or a copy of the whole
      table for "All": exactly the rows of the chosen category, never more
      rows than the table has. */
  function CategoryView(rows: seq<Incident>, weaponFilter: string): (r: seq<Incident>)
    ensures |r| <= |rows|
    ensures forall x :: x in r <==>
              x in rows && (weaponFilter == "All" || CategoryName(x.weaponSimplified) == weaponFilter)
  {
    if weaponFilter == "All" then rows else Where(rows, CategoryIs(weaponFilter))
  }

  /** The view of a concatenation is the concatenation of the views: rows
      keep their order. */
  lemma CategoryViewAppend(a: seq<Incident>, b: seq<Incident>, weaponFilter: string)
    ensures CategoryView(a + b, weaponFilter) == CategoryView(a, weaponFilter) + CategoryView(b, weaponFilter)
  {
    if weaponFilter != "All" {
      WhereAppend(a, b, CategoryIs(weaponFilter));
    }
  }

  /** A name that is no category selects nothing. */
  lemma {:induction false} CategoryViewUnknown(rows: seq<Incident>, weaponFilter: string)
    requires weaponFilter !in CategoryChoices
    ensures CategoryView(rows, weaponFilter) == []
    decreases |rows|
  {
    assert CategoryChoices[0] == "All" && CategoryChoices[1] == "Gun";
    assert CategoryChoices[2] == "Blade" && CategoryChoices[3] == "Other";
    if rows != [] {
      CategoryViewUnknown(rows[1..], weaponFilter);
    }
  }

  /** What one selection does with the first row of a table. */
  lemma WhereCons(x: Incident, rest: seq<Incident>, c: Criterion)
    ensures multiset(Where([x] + rest, c)) == (if Holds(c, x) then multiset{x} else multiset{}) + multiset(Where(rest, c))
  {
    assert ([x] + rest)[1..] == rest;
  }

  /** A row satisfies exactly one of the three category criteria. */
  lemma OneCategory(x: Incident, gun: string, blade: string, other: string)
    requires gun == "Gun" && blade == "Blade" && other == "Other"
    ensures (if Holds(CategoryIs(gun), x) then multiset{x} else multiset{})
            + (if Holds(CategoryIs(blade), x) then multiset{x} else multiset{})
            + (if Holds(CategoryIs(other), x) then multiset{x} else multiset{}) == multiset{x}
  {
    match x.weaponSimplified
    case Gun => assert other[0] != "Gun"[0] && blade[0] != "Gun"[0];
    case Blade => assert other[0] != "Blade"[0] && gun[0] != "Blade"[0];
    case Other => assert gun[0] != "Other"[0] && blade[0] != "Other"[0];
  }

  /** Selecting each of the three category names in turn takes every row
      exactly once. The names are parameters so that the induction does not
      unfold the selection on string constants. */
  lemma {:induction false} SplitByCategory(rows: seq<Incident>, gun: string, blade: string, other: string)
    requires gun == "Gun" && blade == "Blade" && other == "Other"
    ensures multiset(Where(rows, CategoryIs(gun))) + multiset(Where(rows, CategoryIs(blade)))
            + multiset(Where(rows, CategoryIs(other))) == multiset(rows)
    decreases |rows|
  {
    if rows != [] {
      var x, rest := rows[0], rows[1..];
      assert rows == [x] + rest;
      SplitByCategory(rest, gun, blade, other);
      WhereCons(x, rest, CategoryIs(gun));
      WhereCons(x, rest, CategoryIs(blade));
      WhereCons(x, rest, CategoryIs(other));
      OneCategory(x, gun, blade, other);
    }
  }

  /** The three category views split the table: every row is in exactly one
      of them, as often as it is in the table. */
  lemma CategoryPartition(rows: seq<Incident>)
    ensures multiset(CategoryView(rows, "Gun")) + multiset(CategoryView(rows, "Blade"))
            + multiset(CategoryView(rows, "Other")) == multiset(rows)
    ensures |CategoryView(rows, "Gun")| + |CategoryView(rows, "Blade")| + |CategoryView(rows, "Other")| == |rows|
  {
    SplitByCategory(rows, "Gun", "Blade", "Other");
  }

  /** `{i: get_month_name(i) for i in range(1, 13)}`, in key order. */
  function AppMonthLabels(): seq<string> {
    seq(12, i requires 0 <= i < 12 => MonthName(i + 1).value)
  }

  /** `{i: get_weekday_name(i) for i in range(7)}`, in key order. */
  function AppWeekdayLabels(): seq<string> {
    seq(7, i requires 0 <= i < 7 => WeekdayName(i).value)
  }

  /** The page's tables are the label tables themselves. */
  lemma AppLabelsAreTables()
    ensures AppMonthLabels() == MonthNames
    ensures AppWeekdayLabels() == WeekdayNames
  {
  }

  /** The month and weekday numbers of the prediction input: the first key
      of the page's tables whose name is the chosen one. */
  function ScenarioNumbers(monthLabel: string, weekdayLabel: string): (r: Result<(int, int), Error>)
    ensures r.Err? <==> monthLabel !in AppMonthLabels() || weekdayLabel !in AppWeekdayLabels()
    ensures monthLabel !in AppMonthLabels() ==> r == Err(UnknownLabel(monthLabel))
    ensures monthLabel in AppMonthLabels() && weekdayLabel !in AppWeekdayLabels() ==>
              r == Err(UnknownLabel(weekdayLabel))
    ensures r.Ok? ==> Lookup(AppMonthLabels(), 1, r.value.0) == Ok(monthLabel)
                      && Lookup(AppWeekdayLabels(), 0, r.value.1) == Ok(weekdayLabel)
  {
    var month :- Reverse(AppMonthLabels(), 1, monthLabel);
    var weekday :- Reverse(AppWeekdayLabels(), 0, weekdayLabel);
    Ok((month, weekday))
  }

  /** Every name the page offers resolves, and resolves to the one number
      whose name it is; a name the page does not offer fails. */
  lemma ScenarioInversion(monthLabel: string, weekdayLabel: string, month: int, weekday: int)
    ensures ScenarioNumbers(monthLabel, weekdayLabel).Ok? <==>
              monthLabel in AppMonthLabels() && weekdayLabel in AppWeekdayLabels()
    ensures ScenarioNumbers(monthLabel, weekdayLabel) == Ok((month, weekday)) <==>
              MonthName(month) == Ok(monthLabel) && WeekdayName(weekday) == Ok(weekdayLabel)
  {
    AppLabelsAreTables();
    MonthBijection(month, monthLabel);
    WeekdayBijection(weekday, weekdayLabel);
  }
}
