# Charlotte homicide analysis — the data core in Dafny

This project models the logic of a small Streamlit application over the Charlotte-Mecklenburg Police homicide feed. The app fetches the feed as JSON and flattens and cleans it into a table of incidents. It then lets the user filter and map that table and query a prediction model. The model covers the parts of that pipeline that compute on values:

- **Weapon categorisation.** `simplify_weapon` (utils.py) maps the free-text weapon description to Gun, Blade or Other (module `Weapons`). Python's `lower`, `split`, `strip` and `in` are modelled on ASCII text in module `Text`.
- **Label tables.** The month and weekday tables behind `get_month_name` and `get_weekday_name`, and the inverse lookup `[num for num, label in labels.items() if label == name][0]` that turns a chosen name back into its number (module `Labels`).
- **Row filtering.** `filter_data` (module `Filtering`) is a chain of up to four equality selections on Year, Month, Weekday and the raw Weapon text. A selection is skipped when its argument is "All".
- **Normalisation.** The body of `clean_and_save_data_from_api` (app.py), without the fetch and the CSV write (module `Ingest`). It covers:
  - the missing-"features" error;
  - the projection of each feature to a flat record;
  - the epoch-millisecond date parse with coercion to NaT;
  - the `dropna` on date and coordinates;
  - the derived Year, Month, Weekday, Hour and Weapon_Simplified columns.

  The calendar arithmetic pandas performs for `.dt.year`, `.dt.month`, `.dt.dayofweek` and `.dt.hour` is in module `Calendar`. It covers day numbers, the proleptic Gregorian calendar and a proved bijection between day numbers and valid dates.
- **Page logic.** Two pieces of page logic in app.py: the markers page's category view, and the prediction page's inversion of the chosen month and weekday names (module `Views`).

The repository's unit tests (tests/test_utils.py) for `simplify_weapon` and `filter_data` are restated as lemmas in `WeaponExamples` and `FilterExamples`. The tests of `get_month_name` and `get_weekday_name` (tests/test_utils.py:49-56) are restated in `Labels`. The `predict_weapon` tests (tests/test_utils.py:58-79) exercise a stand-in model and are not modelled. `IngestExamples` carries one feature through the normalisation.

Values from the feed are a small JSON scalar type (`Incidents.Value`). Every exception the modelled code raises is a constructor of `Incidents.Error`, and results are `Result`s:

- ValueError for a missing "features" key;
- KeyError for a missing column or a number outside a label table;
- IndexError for a name outside a label table;
- AttributeError for `.get` on a member that is not an object.

The normalisation is the one imperative piece: `Ingest.Normalize` is a method with two loops. The first is the source's loop over the features (app.py:47-61), which builds the records. The second walks the records one by one and stands for the column-wise pandas calls at app.py:68-81: the date parse, the `dropna` and the derived columns. The method is proved equal to the functional specification `Ingest.NormalizeSpec`, and everything else is proved about that specification.

`simplify_weapon` is modelled as the code is written (utils.py:26-30). It is a single scan over the phrases in order, in which the first phrase holding a gun term or a blade term decides: a gun term in that phrase wins over a blade term in it. It is not an "any gun term anywhere wins" rule, which is how the function is sometimes described. So "knife, gun" is Blade (`WeaponExamples.KnifeThenGun`).

An empty "features" list is modelled as the KeyError the code raises on it, not as a precondition. `pd.DataFrame([])` has no "Incident_Date" column, so app.py:68 fails.

## Model

| member | source | states |
|---|---|---|
| Incidents.CategoryName | utils.py:21-31 | the result of `simplify_weapon` is always one of "Gun", "Blade", "Other" |
| Text.LowerChar | utils.py:24 | an upper-case ASCII letter becomes its lower-case letter; every other character is unchanged; no result is upper case |
| Text.Lower | utils.py:24 | `lower()` keeps the length and maps each character by `LowerChar` |
| Text.LowerIdempotent | utils.py:24 | lower-casing twice is lower-casing once |
| Text.LowerOfLowerCase | utils.py:24 | text without upper-case letters is unchanged by `lower()` |
| Text.IsSpace | utils.py:25 | the characters `strip()` removes: space and the ASCII control characters 9-13 and 28-31 that `str.isspace` accepts; a definition, used by the strip contracts below |
| Text.Split | utils.py:25 | `split(',')` returns at least one piece and no piece contains the separator |
| Text.JoinSplit | utils.py:25 | joining the pieces with the separator gives the text back |
| Text.SplitUnique | utils.py:25 | any separator-free pieces that join back to the text are exactly the split's pieces |
| Text.StripLeft | utils.py:25 | leading-whitespace removal leaves a suffix that does not start with whitespace |
| Text.StripLeftBlank | utils.py:25 | what the left strip removes is whitespace only |
| Text.StripRight | utils.py:25 | trailing-whitespace removal leaves a prefix that does not end with whitespace |
| Text.StripRightBlank | utils.py:25 | what the right strip removes is whitespace only |
| Text.Strip | utils.py:25 | `strip()` is a contiguous slice of the text that neither starts nor ends with whitespace |
| Text.StripRemovesBlanks | utils.py:25 | everything `strip()` removes, on either side, is whitespace |
| Text.Contains | utils.py:27 | the substring test `term in w`; a definition, characterised by `Text.ContainsIff` |
| Text.ContainsIff | utils.py:27 | the substring test `term in w` holds exactly when the term occurs at some position of `w` |
| Text.MissingChar | utils.py:27 | a term holding a character that `w` lacks is not in `w` |
| Text.ContainsStrip | utils.py:25-27 | stripping a phrase neither creates nor destroys an occurrence of a term with non-blank ends |
| Weapons.ContainsAnyIff | utils.py:27 | `any(term in w for term in terms)` holds exactly when some term occurs in `w` |
| Weapons.ContainsAny | utils.py:27-29 | `any(term in w for term in terms)`; a definition, characterised by `Weapons.ContainsAnyIff` |
| Weapons.Verdict | utils.py:27-30 | one phrase's verdict: Gun when it holds a gun term, else Blade when it holds a blade term, else Other; a definition, used by `Weapons.FirstVerdictSpec` |
| Weapons.Phrases | utils.py:24-25 | the lower-cased text split on commas with every piece stripped; a definition, characterised by `Weapons.CaseInsensitive` and `Weapons.StripDoesNotMatter` |
| Weapons.FirstVerdict | utils.py:26-31 | the `for` loop with its early returns; a definition, characterised by `Weapons.FirstVerdictSpec` |
| Weapons.SimplifyWeapon | utils.py:21-31 | a value that is not a string is Other, and a result other than Other needs a phrase holding a gun or blade term; `Weapons.SimplifyWeaponSpec` gives the full characterisation |
| Weapons.FirstVerdictSpec | utils.py:26-31 | the loop gives Other exactly when no phrase holds a gun or blade term, and otherwise the first such phrase's verdict (Gun if it holds a gun term, else Blade) |
| Weapons.SimplifyWeaponSpec | utils.py:21-31 | the same characterisation for a string input, over its lower-cased, split and stripped phrases |
| Weapons.CaseInsensitive | utils.py:24 | the category of a text equals the category of its lower-cased form |
| Weapons.TermsAreTrimmed | utils.py:27-29 | none of the nine search terms starts or ends with whitespace |
| Weapons.ContainsAnyStrip | utils.py:25-29 | whether a phrase holds a search term does not change by stripping it |
| Weapons.FirstVerdictStrip | utils.py:25-30 | the scan over stripped pieces gives the same verdict as over the unstripped pieces |
| Weapons.StripDoesNotMatter | utils.py:25-30 | the category is the scan over the unstripped comma pieces of the lower-cased text |
| WeaponExamples.Categorise | utils.py:24-30 | a lower-case text cut into comma-free pieces that join back to it is categorised by those pieces |
| WeaponExamples.Gun | tests/test_utils.py:83 | "gun" is Gun |
| WeaponExamples.FirearmPistol | tests/test_utils.py:84 | "firearm, pistol" is Gun |
| WeaponExamples.Shotgun | tests/test_utils.py:85 | "shotgun" is Gun |
| WeaponExamples.Knife | tests/test_utils.py:88 | "knife" is Blade |
| WeaponExamples.RazorBlade | tests/test_utils.py:89 | "razor blade" is Blade |
| WeaponExamples.CuttingInstrumentSharpObject | tests/test_utils.py:90 | "cutting instrument, sharp object" is Blade |
| WeaponExamples.Hammer | tests/test_utils.py:93 | "hammer" holds no gun or blade term and is Other |
| WeaponExamples.NotAString | tests/test_utils.py:94-95 | `None` and `123` are Other |
| WeaponExamples.KnifeThenGun | utils.py:26-30 | "knife, gun" is Blade: the first decisive phrase wins |
| WeaponExamples.GunThenKnife | utils.py:26-30 | "gun, knife" is Gun |
| WeaponExamples.UpperCaseGun | utils.py:24 | "GUN" is Gun |
| Labels.Lookup | utils.py:36-44 | `labels[n]` succeeds exactly for the table's keys, gives a name of the table, and otherwise raises KeyError(n) |
| Labels.IndexOf | utils.py:11 | the first position holding the name, or none exactly when the name is absent |
| Labels.Reverse | utils.py:11 | the inverse lookup fails with IndexError exactly when the name is not in the table; otherwise the key found maps forward to the name |
| Labels.ReverseLookup | utils.py:11 | in a table without repeats, the inverse lookup of a key's name is that key |
| Labels.ReverseUnique | utils.py:11 | in a table without repeats, the key found is the only key with that name |
| Labels.MonthNamesDistinct | utils.py:2-3 | the twelve month names are distinct |
| Labels.WeekdayNamesDistinct | utils.py:4-5 | the seven weekday names are distinct |
| Labels.MonthName | utils.py:36-39 | `get_month_name(n)` succeeds exactly for 1..12 and otherwise raises KeyError(n) |
| Labels.WeekdayName | utils.py:41-44 | `get_weekday_name(n)` succeeds exactly for 0..6 and otherwise raises KeyError(n) |
| Labels.MonthNumber | utils.py:11 | a month name resolves to a number in 1..12 whose name it is; any other text raises IndexError |
| Labels.WeekdayNumber | utils.py:14 | a weekday name resolves to a number in 0..6 whose name it is; any other text raises IndexError |
| Labels.MonthBijection | utils.py:2-3 | `get_month_name(n) == name` exactly when the inverse lookup of `name` is `n` |
| Labels.WeekdayBijection | utils.py:4-5 | `get_weekday_name(n) == name` exactly when the inverse lookup of `name` is `n` |
| Labels.MonthNameExamples | utils.py:36-39 | 1 is "January" and 12 is "December", as tests/test_utils.py:49-51 checks; 0 and 13 raise KeyError, as `labels[n]` does for a missing key |
| Labels.WeekdayNameExamples | utils.py:41-44 | 0 is "Monday" and 6 is "Sunday", as tests/test_utils.py:54-56 checks; -1 and 7 raise KeyError, as `labels[n]` does for a missing key |
| Filtering.Where | utils.py:9 | one selection `df[df[col] == v]` keeps exactly the rows satisfying the comparison, never more rows than it was given |
| Filtering.WhereAll | utils.py:7-17 | the one-pass reference selection keeps exactly the rows satisfying every criterion |
| Filtering.WhereAllNothing | utils.py:7 | with no criteria the copy is the whole table |
| Filtering.WhereAfterWhereAll | utils.py:9-17 | one more selection after a selection is a single selection on all the criteria |
| Filtering.WhereAppend | utils.py:9 | a selection on a concatenation is the concatenation of the selections, so input order is kept |
| Filtering.WhereAllAppend | utils.py:7-17 | the same for the one-pass selection |
| Filtering.WhereAllIdempotent | utils.py:7-17 | selecting twice on the same criteria is selecting once |
| Filtering.StepAfterWhereAll | utils.py:8-17 | a skipped or applied step after a selection extends its criteria |
| Filtering.MonthCriterion | utils.py:10-12 | fails with IndexError exactly when the name is neither "All" nor a month name; is absent exactly for "All"; otherwise selects on the number whose name it is |
| Filtering.WeekdayCriterion | utils.py:13-15 | the same for weekday names |
| Filtering.Criteria | utils.py:8-17 | the selections `filter_data` applies, in order; a definition, characterised by `Filtering.FilterDataIsOnePass` and `Filtering.CriteriaMeaning` |
| Filtering.FilterData | utils.py:1-18 | fails exactly when the month or weekday name is neither "All" nor in its table, with the month's error first; a success holds only input rows and never more of them; `Filtering.FilterDataSpec` states its exact contents |
| Filtering.FilterDataIsOnePass | utils.py:1-18 | the chain of four selections equals one pass over the input on the resolved criteria, and fails exactly when resolving a name fails |
| Filtering.FilterDataSpec | utils.py:1-18 | `filter_data` fails exactly when the month or weekday name is unknown, reporting the month first; otherwise it returns exactly the input rows whose Year, Month name, Weekday name and raw Weapon match every non-"All" argument |
| Filtering.CriteriaMeaning | utils.py:8-17 | the resolved criteria hold of a row exactly when the row matches every non-"All" argument |
| Filtering.HoldsAllAppend | utils.py:8-17 | criteria joined together hold exactly when both parts hold |
| Filtering.FilterDataIdempotent | utils.py:1-18 | filtering the result again with the same arguments returns it unchanged |
| Filtering.FilterDataAllAll | utils.py:7-18 | with every argument "All" the whole table is returned |
| Filtering.FilterDataAppend | utils.py:1-18 | filtering two tables' concatenation is concatenating their filtered tables |
| FilterExamples.FilterAll | tests/test_utils.py:30-32 | no arguments keep all three test rows |
| FilterExamples.FilterYear2022 | tests/test_utils.py:34-37 | year 2022 keeps exactly the 2022 row |
| FilterExamples.FilterCombined | tests/test_utils.py:39-42 | 2023, "January", "Monday", "Gun" keeps exactly the third row |
| FilterExamples.FilterYear1999 | tests/test_utils.py:44-46 | a year with no rows gives an empty table, not an error |
| FilterExamples.FilterUnknownMonth | utils.py:11 | a name outside the month table ("january") raises IndexError |
| Ingest.Fields | app.py:49-50 | `feature.get(key, {})` gives the member's own map when it is an object, the empty map when it is absent, and AttributeError naming the key exactly when it is neither |
| Ingest.Get | app.py:52-59 | `d.get(key)`, null for a missing key; a definition, characterised by `Ingest.ProjectCases` |
| Ingest.Project | app.py:49-60 | a feature's projection fails exactly when its attributes or geometry is not an object, and then with AttributeError |
| Ingest.ProjectCases | app.py:49-60 | whenever neither member is a non-object, latitude and longitude are the geometry's "y" and "x" and the other six fields the named attributes, each null when its key or its whole member is absent; so absent attributes with a geometry give coordinates and six nulls, and both absent give all nulls; a geometry that is not an object is the error reported |
| Ingest.ProjectAll | app.py:47-61 | the projection loop fails only with AttributeError |
| Ingest.ProjectAllSpec | app.py:47-61 | the loop succeeds exactly when every feature projects, then gives one record per feature in order, and otherwise fails with the first failing feature's error |
| Ingest.ProjectAllFailureStays | app.py:48-61 | once a prefix of the features fails, the whole loop fails the same way |
| Ingest.ParseDate | app.py:68 | `to_datetime(unit="ms", errors="coerce")` gives an integer millisecond count exactly when it fits pandas' 64-bit nanosecond range and keeps that count; a float parses exactly when it is in that range and gives its floor; anything else is NaT |
| Ingest.Survives | app.py:72 | the `dropna` condition: the date parses and both coordinates are present; a definition, used by `Ingest.Clean` |
| Ingest.Clean | app.py:68-72 | a record gives at most one row, and one exactly when its date parses and both coordinates are present |
| Ingest.CleanAll | app.py:68-81 | the parse, drop and derive over the whole table; a definition, characterised by `Ingest.CleanAllSources`, `Ingest.CleanAllComplete`, `Ingest.CleanAllAppend` and `Ingest.CleanAllKeepsAll` |
| Ingest.Derive | app.py:75-81 | the five derived columns of a row; a definition, characterised by `Ingest.DeriveIsRowOf` |
| Ingest.Row | app.py:68-81 | the row a surviving record becomes; a definition, characterised by `Ingest.DeriveIsRowOf` and `Ingest.RowOfUnique` |
| Ingest.NormalizeSpec | app.py:42-87 | the whole normalisation as one function; a definition, characterised by `Ingest.NormalizeOutcomes` and `IngestExamples.OneFeature` |
| Ingest.Normalize | app.py:42-87 | the two loops (building `records`, then parsing, dropping and deriving row by row) compute exactly `NormalizeSpec` |
| Ingest.CleanAllAppend | app.py:72 | the cleaned table of concatenated records is the concatenation of the cleaned tables, so rows keep their features' order |
| Ingest.CleanAllLength | app.py:72 | the cleaned table has no more rows than there were records |
| Ingest.DeriveIsRowOf | app.py:75-81 | a surviving record's row keeps its fields and its parsed date, and its Year, Month, Weekday, Hour and category are those of that date and weapon text |
| Ingest.RowOfUnique | app.py:75-81 | that description determines the row: only one row fits a record |
| Ingest.CleanAllSources | app.py:68-81 | every row of the cleaned table is the row of some surviving record |
| Ingest.CleanAllComplete | app.py:72 | every surviving record's row is in the cleaned table |
| Ingest.CleanAllWellFormed | app.py:75-81 | every row has a date in range, coordinates, a month in 1..12 whose days include the date, weekday Monday = 0 of that day, the instant's hour, and category `simplify_weapon(Weapon)` |
| Ingest.CleanAllKeepsAll | app.py:72-81 | when every record survives, row k is record k's row |
| Ingest.CleanAllDropsAll | app.py:72 | when no record survives the table is empty, not an error |
| Ingest.NormalizeOutcomes | app.py:42-87 | a missing "features" key is exactly the ValueError case; an empty list is the KeyError on "Incident_Date"; with features, the result succeeds exactly when every feature projects; a success has at most one row per feature, each well formed |
| IngestExamples.MondayMorningRow | app.py:68-81 | a record with coordinates, date 1672653600000 and weapon "gun" survives as a row of 2023, January, Monday, hour 10, Gun |
| IngestExamples.NormalizeSingle | app.py:42-87 | a response of one feature whose record survives normalises to that record's row alone |
| IngestExamples.MondayMorningRecord | app.py:51-60 | that feature's record takes the coordinates from the geometry, the date and weapon from the attributes, and nulls elsewhere |
| IngestExamples.OneFeature | app.py:42-87 | a response holding that one feature normalises to exactly one row: 2023, January, Monday, hour 10, Gun |
| Calendar.DaysBeforeYearFormula | app.py:75 | the days before a year are 365 per year plus one per Gregorian leap year |
| Calendar.DaysFromCivil | app.py:75-76 | the day number of a date; a definition, characterised by `Calendar.CivilFromDays`, `Calendar.CivilRoundTrip` and `Calendar.DaysFromCivilInjective` |
| Calendar.CivilFromDays | app.py:75-76 | the date of a day number is a valid date that converts back to that day number |
| Calendar.DaysFromCivilInjective | app.py:75-76 | different valid dates are different day numbers |
| Calendar.CivilRoundTrip | app.py:75-76 | converting a valid date to its day number and back gives the same date |
| Calendar.HourOf | app.py:78 | `.dt.hour` is in 0..23 |
| Calendar.DayNumber | app.py:75-78 | the whole days since 1970-01-01 of an instant, rounding down before the epoch; a definition, characterised by `Calendar.HourSplit` |
| Calendar.HourSplit | app.py:78 | an instant is its whole days, plus its hour, plus less than an hour |
| Calendar.WeekdayOf | app.py:77 | `.dt.dayofweek` is in 0..6 |
| Calendar.WeekdayCycle | app.py:77 | 1970-01-01 is a Thursday (3), weekdays advance by one per day and repeat every seven days |
| Calendar.SecondOfJanuary2023 | app.py:77 | 2 January 2023 is day 19359 and a Monday (0) |
| Views.CategoryView | app.py:239-241 | the markers view keeps exactly the rows whose Weapon_Simplified label is the chosen category, or every row for "All", and never more rows than the table has |
| Views.CategoryViewAppend | app.py:239-241 | the view of a concatenation is the concatenation of the views, so rows keep their order |
| Views.CategoryViewUnknown | app.py:230-241 | a name that is not one of the page's choices selects nothing |
| Views.CategoryPartition | app.py:239-241 | the Gun, Blade and Other views together are the table as a multiset: every row is in exactly one of them, as often as it is in the table; so their lengths add up to the table's |
| Views.AppLabelsAreTables | app.py:134-135 | the page's label dictionaries are the month and weekday tables |
| Views.ScenarioNumbers | app.py:192-194 | fails with IndexError exactly when a chosen name is not in the page's table, reporting the month first; a success gives keys that the page's tables map to the chosen names |
| Views.ScenarioInversion | app.py:192-194 | the chosen names resolve exactly when they are in the page's tables, and resolve to (m, w) exactly when m and w are the numbers whose names they are |

## Left out

- `fetch_data` (app.py:16-39): the HTTP request and the fallback to the two local JSON files are network and file I/O. The decoded response is a parameter of `Ingest.Normalize`.
- The CSV write (app.py:84-85) and app2.py, which reloads that file: file I/O. `Ingest.Normalize` returns the table.
- `predict_weapon` (utils.py:33-34) and the joblib model (app.py:126-128): a call into a trained model that is not part of this model.
- The Streamlit widgets, session state, folium maps, heatmap and map-centre means (app.py:90-279, apart from lines 134-135, 192-194 and 239-241): user interface and floating-point means.
- Text.Lower: only ASCII letters are lower-cased. Python's `str.lower` is Unicode-aware.
- Text.IsSpace: only the ASCII characters `str.isspace` accepts are whitespace. Unicode spaces are not.
- Ingest.ParseDate: the model keeps only part of pandas' behaviour.
  - Numeric strings and booleans, which pandas may convert, are treated as NaT.
  - A float keeps only its whole milliseconds.
  - A float less than one millisecond beyond the range is treated as NaT.
  - The column-wide type promotion pandas applies to mixed columns is not modelled.
- Ingest.Feature: each element of "features" is modelled as an object whose "attributes" and "geometry" are absent, an object, or another value. A "features" value that is not a list is not modelled, and neither is an element that is not an object.
- Ingest.Survives: coordinates are opaque values, and only `null` counts as missing. A float NaN coordinate, which `dropna` would also drop, is not representable.
- Ingest.Normalize: pandas derives each column for all rows at once; the method derives each row's columns in turn. The resulting table is the same because each derived column depends only on its own row. The mutation of one shared DataFrame is not modelled.
- Filtering.FilterData: the year argument is an integer or "All". A year of another type compared against the Year column is not modelled.

`Filtering.Where` and the views return new sequences, so "the input is not changed" holds by construction.
