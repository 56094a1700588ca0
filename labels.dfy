/** The two calendar label tables: month numbers 1..12 and weekday numbers
    0..6 (Monday is 0) to their English names, the lookups `get_month_name`
    and `get_weekday_name`, and the inverse lookup `[num for num, label in
    labels.items() if label == name][0]` that `filter_data` and the
    prediction tool use to turn a chosen name back into its number. */
module Labels {
  import opened Wrappers
  import opened Incidents

  /** The month table, in key order starting at 1. */
  const MonthNames: seq<string> := ["January", "February", "March", "April", "May", "June",
    "July", "August", "September", "October", "November", "December"]
  const FirstMonth: int := 1

  /** The weekday table, in key order starting at 0. */
  const WeekdayNames: seq<string> := ["Monday", "Tuesday", "Wednesday", "Thursday",
    "Friday", "Saturday", "Sunday"]
  const FirstWeekday: int := 0

  /** No name appears twice in `names`. */
  predicate Distinct(names: seq<string>) {
    forall i, j :: 0 <= i < j < |names| ==> names[i] != names[j]
  }

  /** `labels[n]` on the table whose keys are `first`, `first + 1`, ... in
      order: a key outside the table raises KeyError. */
  function Lookup(names: seq<string>, first: int, n: int): (r: Result<string, Error>)
    ensures r.Ok? <==> first <= n < first + |names|
    ensures r.Ok? ==> r.value in names
    ensures r.Err? ==> r.error == KeyError(n)
  {
    if first <= n < first + |names| then Ok(names[n - first]) else Err(KeyError(n))
  }

  /** The position of the first entry of `names` equal to `name`. */
  function IndexOf(names: seq<string>, name: string): (r: Option<nat>)
    ensures r.None? <==> name !in names
    ensures r.Some? ==> r.value < |names| && names[r.value] == name
    ensures r.Some? ==> forall j :: 0 <= j < r.value ==> names[j] != name
    decreases |names|
  {
    if names == [] then None
    else if names[0] == name then Some(0)
    else match IndexOf(names[1..], name)
      case None => None
      case Some(i) => Some(i + 1)
  }

  /** The first key whose label is `name`; indexing `[0]` into the empty
      list of matches raises IndexError, modelled as `UnknownLabel`. */
  function Reverse(names: seq<string>, first: int, name: string): (r: Result<int, Error>)
    ensures r.Err? <==> name !in names
    ensures r.Err? ==> r.error == UnknownLabel(name)
    ensures r.Ok? ==> Lookup(names, first, r.value) == Ok(name)
  {
    match IndexOf(names, name)
    case None => Err(UnknownLabel(name))
    case Some(i) => Ok(first + i)
  }

  /** In a table without repeated names, looking a key up and reversing the
      label gives the key back. */
  lemma ReverseLookup(names: seq<string>, first: int, n: int)
    requires Distinct(names) && first <= n < first + |names|
    ensures Reverse(names, first, Lookup(names, first, n).value) == Ok(n)
  {
  }

  /** In a table without repeated names, the key `Reverse` finds is the only
      key whose label is `name`. */
  lemma ReverseUnique(names: seq<string>, first: int, name: string, n: int)
    requires Distinct(names)
    ensures Lookup(names, first, n) == Ok(name) <==> Reverse(names, first, name) == Ok(n)
  {
    if Lookup(names, first, n) == Ok(name) {
      ReverseLookup(names, first, n);
    }
  }

  lemma MonthNamesDistinct()
    ensures Distinct(MonthNames)
  {
    assert MonthNames[0][0] == 'J' && MonthNames[1][0] == 'F' && MonthNames[2][0] == 'M';
    assert MonthNames[3][0] == 'A' && MonthNames[4][0] == 'M' && MonthNames[5][0] == 'J';
    assert MonthNames[6][0] == 'J' && MonthNames[7][0] == 'A' && MonthNames[8][0] == 'S';
    assert MonthNames[9][0] == 'O' && MonthNames[10][0] == 'N' && MonthNames[11][0] == 'D';
  }

  lemma WeekdayNamesDistinct()
    ensures Distinct(WeekdayNames)
  {
  }

  /** `get_month_name(n)`. */
  function MonthName(n: int): (r: Result<string, Error>)
    ensures r.Ok? <==> 1 <= n <= 12
    ensures r.Err? ==> r.error == KeyError(n)
  {
    Lookup(MonthNames, FirstMonth, n)
  }

  /** `get_weekday_name(n)`. */
  function WeekdayName(n: int): (r: Result<string, Error>)
    ensures r.Ok? <==> 0 <= n <= 6
    ensures r.Err? ==> r.error == KeyError(n)
  {
    Lookup(WeekdayNames, FirstWeekday, n)
  }

  /** The month number of a month name. */
  function MonthNumber(name: string): (r: Result<int, Error>)
    ensures r.Err? <==> name !in MonthNames
    ensures r.Ok? ==> 1 <= r.value <= 12 && MonthName(r.value) == Ok(name)
    ensures r.Err? ==> r.error == UnknownLabel(name)
  {
    Reverse(MonthNames, FirstMonth, name)
  }

  /** The weekday number of a weekday name. */
  function WeekdayNumber(name: string): (r: Result<int, Error>)
    ensures r.Err? <==> name !in WeekdayNames
    ensures r.Ok? ==> 0 <= r.value <= 6 && WeekdayName(r.value) == Ok(name)
    ensures r.Err? ==> r.error == UnknownLabel(name)
  {
    Reverse(WeekdayNames, FirstWeekday, name)
  }

  /** The month table is a bijection between 1..12 and its names: the number
      found for a name is the one month whose name it is. */
  lemma MonthBijection(n: int, name: string)
    ensures MonthName(n) == Ok(name) <==> MonthNumber(name) == Ok(n)
  {
    MonthNamesDistinct();
    ReverseUnique(MonthNames, FirstMonth, name, n);
  }

  /** The weekday table is a bijection between 0..6 and its names. */
  lemma WeekdayBijection(n: int, name: string)
    ensures WeekdayName(n) == Ok(name) <==> WeekdayNumber(name) == Ok(n)
  {
    WeekdayNamesDistinct();
    ReverseUnique(WeekdayNames, FirstWeekday, name, n);
  }

  /** `get_month_name(1)`, `get_month_name(12)`, and the keys just outside
      the table. */
  lemma MonthNameExamples()
    ensures MonthName(1) == Ok("January")
    ensures MonthName(12) == Ok("December")
    ensures MonthName(0) == Err(KeyError(0))
    ensures MonthName(13) == Err(KeyError(13))
  {
  }

  /** `get_weekday_name(0)`, `get_weekday_name(6)`, and the keys just outside
      the table. */
  lemma WeekdayNameExamples()
    ensures WeekdayName(0) == Ok("Monday")
    ensures WeekdayName(6) == Ok("Sunday")
    ensures WeekdayName(-1) == Err(KeyError(-1))
    ensures WeekdayName(7) == Err(KeyError(7))
  {
  }
}
