/** Row selection on the incident table: `filter_data` (utils.py), a chain of
    up to four equality selections on Year, Month, Weekday and the raw Weapon
    text, each skipped when its argument is "All". */
module Filtering {
  import opened Wrappers
  import opened Incidents
  import opened Labels

  /** An argument that is either the sentinel "All" or a value to match. */
  datatype Choice<T> = All | Only(value: T)

  /** One equality selection `df[df[column] == value]`. */
  datatype Criterion =
    | YearIs(year: int)
    | MonthIs(month: int)
    | WeekdayIs(weekday: int)
    | WeaponIs(weapon: string)        // compares the raw `Weapon` column
    | CategoryIs(category: string)    // compares the `Weapon_Simplified` label

  predicate Holds(c: Criterion, row: Incident) {
    match c
    case YearIs(y) => row.year == y
    case MonthIs(m) => row.month == m
    case WeekdayIs(w) => row.weekday == w
    case WeaponIs(w) => row.weapon == Str(w)
    case CategoryIs(name) => CategoryName(row.weaponSimplified) == name
  }

  /** `df[df[column] == value]` for one criterion: the rows that satisfy it,
      in their input order. */
  function Where(rows: seq<Incident>, c: Criterion): (r: seq<Incident>)
    ensures |r| <= |rows|
    ensures forall x :: x in r <==> x in rows && Holds(c, x)
    decreases |rows|
  {
    if rows == [] then []
    else (if Holds(c, rows[0]) then [rows[0]] else []) + Where(rows[1..], c)
  }

  /** Every criterion of `cs` holds for `row`. */
  predicate HoldsAll(cs: seq<Criterion>, row: Incident) {
    forall k :: 0 <= k < |cs| ==> Holds(cs[k], row)
  }

  /** The reference selection: one pass keeping the rows that satisfy every
      criterion of `cs`, in their input order. */
  function WhereAll(rows: seq<Incident>, cs: seq<Criterion>): (r: seq<Incident>)
    ensures |r| <= |rows|
    ensures forall x :: x in r <==> x in rows && HoldsAll(cs, x)
    decreases |rows|
  {
    if rows == [] then []
    else (if HoldsAll(cs, rows[0]) then [rows[0]] else []) + WhereAll(rows[1..], cs)
  }

  /** With no criteria, every row is kept. */
  lemma {:induction false} WhereAllNothing(rows: seq<Incident>)
    ensures WhereAll(rows, []) == rows
    decreases |rows|
  {
    if rows != [] {
      WhereAllNothing(rows[1..]);
      assert rows == [rows[0]] + rows[1..];
    }
  }

  /** Selecting on one more criterion after a selection is a single selection
      on all of them. */
  lemma {:induction false} WhereAfterWhereAll(rows: seq<Incident>, cs: seq<Criterion>, c: Criterion)
    ensures Where(WhereAll(rows, cs), c) == WhereAll(rows, cs + [c])
    decreases |rows|
  {
    if rows != [] {
      WhereAfterWhereAll(rows[1..], cs, c);
      var x := rows[0];
      assert HoldsAll(cs + [c], x) <==> HoldsAll(cs, x) && Holds(c, x) by {
        assert forall k :: 0 <= k < |cs| ==> (cs + [c])[k] == cs[k];
        assert (cs + [c])[|cs|] == c;
      }
      var head := if HoldsAll(cs, x) then [x] else [];
      WhereAppend(head, WhereAll(rows[1..], cs), c);
    }
  }

  /** Selection distributes over concatenation, so it keeps the input order. */
  lemma {:induction false} WhereAppend(a: seq<Incident>, b: seq<Incident>, c: Criterion)
    ensures Where(a + b, c) == Where(a, c) + Where(b, c)
    decreases |a|
  {
    if a == [] {
      assert a + b == b;
    } else {
      assert (a + b)[1..] == a[1..] + b;
      WhereAppend(a[1..], b, c);
    }
  }

  /** The one-pass selection distributes over concatenation: rows keep their
      relative order. */
  lemma {:induction false} WhereAllAppend(a: seq<Incident>, b: seq<Incident>, cs: seq<Criterion>)
    ensures WhereAll(a + b, cs) == WhereAll(a, cs) + WhereAll(b, cs)
    decreases |a|
  {
    if a == [] {
      assert a + b == b;
    } else {
      assert (a + b)[1..] == a[1..] + b;
      WhereAllAppend(a[1..], b, cs);
    }
  }

  /** Selecting twice with the same criteria is selecting once. */
  lemma {:induction false} WhereAllIdempotent(rows: seq<Incident>, cs: seq<Criterion>)
    ensures WhereAll(WhereAll(rows, cs), cs) == WhereAll(rows, cs)
    decreases |rows|
  {
    if rows != [] {
      WhereAllIdempotent(rows[1..], cs);
      var head := if HoldsAll(cs, rows[0]) then [rows[0]] else [];
      WhereAllAppend(head, WhereAll(rows[1..], cs), cs);
    }
  }

  /** One step of the chain: skipped when `c` is absent, otherwise a
      selection on it. */
  function Step(rows: seq<Incident>, c: Option<Criterion>): seq<Incident> {
    match c
    case None => rows
    case Some(k) => Where(rows, k)
  }

  function AsList(c: Option<Criterion>): seq<Criterion> {
    match c
    case None => []
    case Some(k) => [k]
  }

  /** A step after a one-pass selection extends its list of criteria. */
  lemma StepAfterWhereAll(rows: seq<Incident>, cs: seq<Criterion>, c: Option<Criterion>)
    ensures Step(WhereAll(rows, cs), c) == WhereAll(rows, cs + AsList(c))
  {
    match c
    case None =>
      assert cs + [] == cs;
    case Some(k) =>
      WhereAfterWhereAll(rows, cs, k);
  }

  /** The year criterion, absent for "All". */
  function YearCriterion(year: Choice<int>): Option<Criterion> {
    match year
    case All => None
    case Only(y) => Some(YearIs(y))
  }

  /** The month criterion, absent for "All"; a name outside the month table
      fails as the `[0]` of an empty list does. */
  function MonthCriterion(monthLabel: string): (r: Result<Option<Criterion>, Error>)
    ensures r.Err? <==> !KnownLabel(monthLabel, MonthNames)
    ensures r.Err? ==> r.error == UnknownLabel(monthLabel)
    ensures r.Ok? ==> (r.value.None? <==> monthLabel == "All")
    ensures r.Ok? && r.value.Some? ==>
              r.value.value.MonthIs? && MonthName(r.value.value.month) == Ok(monthLabel)
  {
    if monthLabel == "All" then Ok(None)
    else
      var m :- MonthNumber(monthLabel);
      Ok(Some(MonthIs(m)))
  }

  /** The weekday criterion, absent for "All"; a name outside the weekday
      table fails. */
  function WeekdayCriterion(weekdayLabel: string): (r: Result<Option<Criterion>, Error>)
    ensures r.Err? <==> !KnownLabel(weekdayLabel, WeekdayNames)
    ensures r.Err? ==> r.error == UnknownLabel(weekdayLabel)
    ensures r.Ok? ==> (r.value.None? <==> weekdayLabel == "All")
    ensures r.Ok? && r.value.Some? ==>
              r.value.value.WeekdayIs? && WeekdayName(r.value.value.weekday) == Ok(weekdayLabel)
  {
    if weekdayLabel == "All" then Ok(None)
    else
      var w :- WeekdayNumber(weekdayLabel);
      Ok(Some(WeekdayIs(w)))
  }

  /** The weapon criterion on the raw `Weapon` text, absent for "All". */
  function WeaponCriterion(weapon: string): Option<Criterion> {
    if weapon == "All" then None else Some(WeaponIs(weapon))
  }

  /** `filter_data(df, year, month_label, weekday_label, weapon)`: the year
      selection, then the month name is resolved and selected on, then the
      weekday name, then the weapon text. Each selection makes a new table;
      `rows` itself is a value and is never changed. */
  function FilterData(rows: seq<Incident>, year: Choice<int>, monthLabel: string,
                      weekdayLabel: string, weapon: string): (r: Result<seq<Incident>, Error>)
    ensures r.Ok? <==> KnownLabel(monthLabel, MonthNames) && KnownLabel(weekdayLabel, WeekdayNames)
    ensures !KnownLabel(monthLabel, MonthNames) ==> r == Err(UnknownLabel(monthLabel))
    ensures KnownLabel(monthLabel, MonthNames) && !KnownLabel(weekdayLabel, WeekdayNames) ==>
              r == Err(UnknownLabel(weekdayLabel))
    ensures r.Ok? ==> |r.value| <= |rows| && forall x :: x in r.value ==> x in rows
  {
    var byYear := Step(rows, YearCriterion(year));
    var month :- MonthCriterion(monthLabel);
    var byMonth := Step(byYear, month);
    var weekday :- WeekdayCriterion(weekdayLabel);
    var byWeekday := Step(byMonth, weekday);
    Ok(Step(byWeekday, WeaponCriterion(weapon)))
  }

  /** The criteria `filter_data` ends up applying, or the error it raises. */
  function Criteria(year: Choice<int>, monthLabel: string, weekdayLabel: string,
                    weapon: string): Result<seq<Criterion>, Error>
  {
    var month :- MonthCriterion(monthLabel);
    var weekday :- WeekdayCriterion(weekdayLabel);
    Ok(AsList(YearCriterion(year)) + AsList(month) + AsList(weekday) + AsList(WeaponCriterion(weapon)))
  }

  /** The chain of selections is one pass over the input keeping the rows
      that satisfy every criterion; it fails exactly when resolving a name
      fails. */
  lemma FilterDataIsOnePass(rows: seq<Incident>, year: Choice<int>, monthLabel: string,
                            weekdayLabel: string, weapon: string)
    ensures Criteria(year, monthLabel, weekdayLabel, weapon).Err? ==>
              FilterData(rows, year, monthLabel, weekdayLabel, weapon)
              == Err(Criteria(year, monthLabel, weekdayLabel, weapon).error)
    ensures Criteria(year, monthLabel, weekdayLabel, weapon).Ok? ==>
              FilterData(rows, year, monthLabel, weekdayLabel, weapon)
              == Ok(WhereAll(rows, Criteria(year, monthLabel, weekdayLabel, weapon).value))
  {
    var month := MonthCriterion(monthLabel);
    var weekday := WeekdayCriterion(weekdayLabel);
    if month.Ok? && weekday.Ok? {
      var c0 := AsList(YearCriterion(year));
      var c1 := c0 + AsList(month.value);
      var c2 := c1 + AsList(weekday.value);
      var c3 := c2 + AsList(WeaponCriterion(weapon));
      WhereAllNothing(rows);
      StepAfterWhereAll(rows, [], YearCriterion(year));
      assert [] + c0 == c0;
      StepAfterWhereAll(rows, c0, month.value);
      StepAfterWhereAll(rows, c1, weekday.value);
      StepAfterWhereAll(rows, c2, WeaponCriterion(weapon));
    }
  }

  /** The condition `filter_data` selects on, stated with the forward label
      tables: a month or weekday name matches the row's number when the
      table gives that name for it. */
  predicate Selected(row: Incident, year: Choice<int>, monthLabel: string,
                     weekdayLabel: string, weapon: string)
  {
    (year.All? || row.year == year.value)
    && (monthLabel == "All" || MonthName(row.month) == Ok(monthLabel))
    && (weekdayLabel == "All" || WeekdayName(row.weekday) == Ok(weekdayLabel))
    && (weapon == "All" || row.weapon == Str(weapon))
  }

  /** A name argument that is "All" or a name of its table. */
  predicate KnownLabel(name: string, names: seq<string>) {
    name == "All" || name in names
  }

  /** `filter_data` fails exactly when the month or the weekday name is
      unknown, with the month checked first; otherwise it returns exactly the
      input rows that satisfy every non-"All" argument, in input order. */
  lemma FilterDataSpec(rows: seq<Incident>, year: Choice<int>, monthLabel: string,
                       weekdayLabel: string, weapon: string)
    ensures var r := FilterData(rows, year, monthLabel, weekdayLabel, weapon);
            r.Ok? <==> KnownLabel(monthLabel, MonthNames) && KnownLabel(weekdayLabel, WeekdayNames)
    ensures !KnownLabel(monthLabel, MonthNames) ==>
              FilterData(rows, year, monthLabel, weekdayLabel, weapon) == Err(UnknownLabel(monthLabel))
    ensures KnownLabel(monthLabel, MonthNames) && !KnownLabel(weekdayLabel, WeekdayNames) ==>
              FilterData(rows, year, monthLabel, weekdayLabel, weapon) == Err(UnknownLabel(weekdayLabel))
    ensures var r := FilterData(rows, year, monthLabel, weekdayLabel, weapon);
            r.Ok? ==> forall x :: x in r.value <==> x in rows && Selected(x, year, monthLabel, weekdayLabel, weapon)
  {
    FilterDataIsOnePass(rows, year, monthLabel, weekdayLabel, weapon);
    var cr := Criteria(year, monthLabel, weekdayLabel, weapon);
    if cr.Ok? {
      var cs := cr.value;
      forall x | x in rows
        ensures HoldsAll(cs, x) <==> Selected(x, year, monthLabel, weekdayLabel, weapon)
      {
        MonthBijection(x.month, monthLabel);
        WeekdayBijection(x.weekday, weekdayLabel);
        CriteriaMeaning(year, monthLabel, weekdayLabel, weapon, x);
      }
    }
  }

  /** Each resolved criterion list holds of a row exactly when the row is
      selected. */
  lemma CriteriaMeaning(year: Choice<int>, monthLabel: string, weekdayLabel: string,
                        weapon: string, x: Incident)
    requires Criteria(year, monthLabel, weekdayLabel, weapon).Ok?
    requires monthLabel != "All" ==> (MonthName(x.month) == Ok(monthLabel) <==> MonthNumber(monthLabel) == Ok(x.month))
    requires weekdayLabel != "All" ==> (WeekdayName(x.weekday) == Ok(weekdayLabel) <==> WeekdayNumber(weekdayLabel) == Ok(x.weekday))
    ensures HoldsAll(Criteria(year, monthLabel, weekdayLabel, weapon).value, x)
            <==> Selected(x, year, monthLabel, weekdayLabel, weapon)
  {
    var a := AsList(YearCriterion(year));
    var b := AsList(MonthCriterion(monthLabel).value);
    var c := AsList(WeekdayCriterion(weekdayLabel).value);
    var d := AsList(WeaponCriterion(weapon));
    assert Criteria(year, monthLabel, weekdayLabel, weapon).value == a + b + c + d;
    HoldsAllAppend(a, b, x);
    HoldsAllAppend(a + b, c, x);
    HoldsAllAppend(a + b + c, d, x);
    YearPart(year, x);
    MonthPart(monthLabel, x);
    WeekdayPart(weekdayLabel, x);
    WeaponPart(weapon, x);
  }

  lemma YearPart(year: Choice<int>, x: Incident)
    ensures HoldsAll(AsList(YearCriterion(year)), x) <==> year.All? || x.year == year.value
  {
    HoldsAllOne(YearCriterion(year), x);
  }

  lemma MonthPart(monthLabel: string, x: Incident)
    requires MonthCriterion(monthLabel).Ok?
    requires monthLabel != "All" ==> (MonthName(x.month) == Ok(monthLabel) <==> MonthNumber(monthLabel) == Ok(x.month))
    ensures HoldsAll(AsList(MonthCriterion(monthLabel).value), x)
            <==> monthLabel == "All" || MonthName(x.month) == Ok(monthLabel)
  {
    HoldsAllOne(MonthCriterion(monthLabel).value, x);
  }

  lemma WeekdayPart(weekdayLabel: string, x: Incident)
    requires WeekdayCriterion(weekdayLabel).Ok?
    requires weekdayLabel != "All" ==> (WeekdayName(x.weekday) == Ok(weekdayLabel) <==> WeekdayNumber(weekdayLabel) == Ok(x.weekday))
    ensures HoldsAll(AsList(WeekdayCriterion(weekdayLabel).value), x)
            <==> weekdayLabel == "All" || WeekdayName(x.weekday) == Ok(weekdayLabel)
  {
    HoldsAllOne(WeekdayCriterion(weekdayLabel).value, x);
  }

  lemma WeaponPart(weapon: string, x: Incident)
    ensures HoldsAll(AsList(WeaponCriterion(weapon)), x) <==> weapon == "All" || x.weapon == Str(weapon)
  {
    HoldsAllOne(WeaponCriterion(weapon), x);
  }


  lemma HoldsAllOne(c: Option<Criterion>, x: Incident)
    ensures HoldsAll(AsList(c), x) <==> c.None? || Holds(c.value, x)
  {
    if c.Some? {
      assert AsList(c)[0] == c.value;
    }
  }

  lemma HoldsAllAppend(a: seq<Criterion>, b: seq<Criterion>, x: Incident)
    ensures HoldsAll(a + b, x) <==> HoldsAll(a, x) && HoldsAll(b, x)
  {
    if HoldsAll(a, x) && HoldsAll(b, x) {
      forall k | 0 <= k < |a + b|
        ensures Holds((a + b)[k], x)
      {
        if k >= |a| {
          assert (a + b)[k] == b[k - |a|];
        } else {
          assert (a + b)[k] == a[k];
        }
      }
    }
    if HoldsAll(a + b, x) {
      forall k | 0 <= k < |a|
        ensures Holds(a[k], x)
      {
        assert (a + b)[k] == a[k];
      }
      forall k | 0 <= k < |b|
        ensures Holds(b[k], x)
      {
        assert (a + b)[|a| + k] == b[k];
      }
    }
  }

  /** Filtering the result again with the same arguments changes nothing. */
  lemma FilterDataIdempotent(rows: seq<Incident>, year: Choice<int>, monthLabel: string,
                             weekdayLabel: string, weapon: string)
    requires FilterData(rows, year, monthLabel, weekdayLabel, weapon).Ok?
    ensures var once := FilterData(rows, year, monthLabel, weekdayLabel, weapon).value;
            FilterData(once, year, monthLabel, weekdayLabel, weapon) == Ok(once)
  {
    var once := FilterData(rows, year, monthLabel, weekdayLabel, weapon).value;
    FilterDataIsOnePass(rows, year, monthLabel, weekdayLabel, weapon);
    FilterDataIsOnePass(once, year, monthLabel, weekdayLabel, weapon);
    WhereAllIdempotent(rows, Criteria(year, monthLabel, weekdayLabel, weapon).value);
  }

  /** With every argument "All", the table comes back whole. */
  lemma FilterDataAllAll(rows: seq<Incident>)
    ensures FilterData(rows, All, "All", "All", "All") == Ok(rows)
  {
  }

  /** Filtering the concatenation of two tables is filtering each. */
  lemma FilterDataAppend(a: seq<Incident>, b: seq<Incident>, year: Choice<int>, monthLabel: string,
                         weekdayLabel: string, weapon: string)
    requires FilterData(a, year, monthLabel, weekdayLabel, weapon).Ok?
    ensures FilterData(a + b, year, monthLabel, weekdayLabel, weapon)
            == Ok(FilterData(a, year, monthLabel, weekdayLabel, weapon).value
                  + FilterData(b, year, monthLabel, weekdayLabel, weapon).value)
  {
    FilterDataIsOnePass(a, year, monthLabel, weekdayLabel, weapon);
    FilterDataIsOnePass(b, year, monthLabel, weekdayLabel, weapon);
    FilterDataIsOnePass(a + b, year, monthLabel, weekdayLabel, weapon);
    WhereAllAppend(a, b, Criteria(year, monthLabel, weekdayLabel, weapon).value);
  }
}
