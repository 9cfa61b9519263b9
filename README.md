# Plastic + PCR Calculator: a Dafny model

The calculator is a Streamlit page with three inputs:

- a vendor part number,
- a count of units purchased,
- a factor in kg CO2e avoided per kg of post-consumer recycled (PCR) plastic.

It looks the part up in a spreadsheet of parts. From the row it finds, it shows three figures:

- the plastic used, in pounds;
- the PCR plastic used, in pounds;
- the CO2e avoided, in metric tons.

This project models that lookup-and-calculate pipeline as pure Dafny functions and proves properties of it. It has four modules:

- `Text` (`text.dfy`): Python's `str.strip()`. The whitespace set is that of `str.isspace()`. Proved:
  - the result has no whitespace at either end;
  - it is empty exactly for all-whitespace input;
  - padding with whitespace does not change it;
  - it is idempotent.
- `Catalog` (`catalog.dfy`): the loaded table. `Load` strips every stored part number. `Select` is the exact-equality row filter. `Lookup` takes the first selected row or reports "not found".
- `Pcr` (`pcr.dfy`): the constants and the chain of unit conversions. Exact `real` arithmetic stands in for floats. The chain collapses to grams × units × percent × factor / 10^8 tons. This is because `KG_PER_LB * 1000 == GRAMS_PER_LB`.
- `App` (`app.dfy`): one run of the script, `Evaluate`. It returns one of three outcomes:
  - `Prompt`: the idle message, shown when the stripped part number is empty or no units are entered;
  - `NotFound`: no stored part number matches;
  - `Results`: the metrics of the first matching row.

Lookup is case-sensitive: after stripping, both sides are compared with plain `==` (app.py:65). `App.LookupIsCaseSensitive` proves that "ABC" does not find "abc". The code has none of the following, so the model has none of them either:

- aliases for the spreadsheet's column headers;
- a per-request override of the PCR percentage;
- a "miles equivalent" figure;
- an explicit error for a missing weight.

The table is loaded once and cached, but `Load` is pure. So `Evaluate` takes the rows as read and applies `Load` itself. The widget bounds become parameter types and preconditions:

- the unit count is a `nat`, because the widget's minimum is 0;
- the factor must be at least 0, because that is the widget's minimum.

## Model

The contracts of the single conversion steps (`PlasticLbs`, `PcrLbs`, `LbsToKg`, `KgToMetricTons`) are their one-line bodies written as the inverse conversion. They are not independent specifications. The specification content is in `Calculate`'s closed form and in the zero, bound, sign and monotonicity lemmas about it.

| member | source | states |
|---|---|---|
| `Text.IsSpaceOnPartNumberCharacters` | app.py:57 | `IsSpace` is the whitespace set of Python's `str.isspace()`, which `.strip()` removes at app.py:31 and app.py:57; for the characters of a part number, plain whitespace and NO-BREAK SPACE are in it, while letters, digits, '-' and the zero-width space are not |
| `Text.TrimStart` | app.py:57 | the result is a suffix of the input and does not start with whitespace |
| `Text.TrimStartDropsSpace` | app.py:57 | what TrimStart removes is all whitespace |
| `Text.TrimEnd` | app.py:57 | the result is a prefix of the input and does not end with whitespace |
| `Text.TrimEndDropsSpace` | app.py:57 | what TrimEnd removes is all whitespace |
| `Text.Strip` | app.py:57 | `.strip()` leaves no whitespace at either end |
| `Text.StripPadded` | app.py:57 | a stripped string padded with whitespace strips back to itself, so the core alone determines the result |
| `Text.StrippedIsFixed` | app.py:31 | a string with no whitespace at its ends is unchanged by stripping |
| `Text.StripEmptyIffAllSpace` | app.py:64 | the stripped part number is empty (falsy) exactly when the typed text is all whitespace |
| `Text.StripIgnoresPadding` | app.py:57 | two inputs that differ only in leading or trailing whitespace strip to the same string |
| `Text.StripIdempotent` | app.py:31 | stripping an already stripped part number changes nothing |
| `Catalog.Load` | app.py:28-32 | every stored part number is stripped, weight and percent are kept, and rows keep their order |
| `Catalog.LoadIdempotent` | app.py:31 | normalising an already normalised table changes nothing |
| `Catalog.LoadIgnoresPadding` | app.py:31 | whitespace around one stored part number does not change the loaded table |
| `Catalog.Select` | app.py:65 | every selected row is in the table and matches the query exactly; every matching row is selected |
| `Catalog.Lookup` | app.py:65-70 | a found row is in the table and its part number equals the query |
| `Catalog.LookupNoneIffAbsent` | app.py:65-68 | "not found" if and only if no row's part number equals the query |
| `Catalog.SelectStartsWithFirstMatch` | app.py:65-70 | the filter result starts with the first matching row in table order |
| `Catalog.LookupFirstMatch` | app.py:65-70 | with duplicate part numbers, lookup returns the first one in table order |
| `Pcr.PoundConstantsAgree` | app.py:7-8 | `KG_PER_LB` × 1000 equals `GRAMS_PER_LB` |
| `Pcr.PlasticLbs` | app.py:77 | converted back to grams, the plastic pounds equal grams × units |
| `Pcr.PcrLbs` | app.py:78 | the PCR pounds are `pct` hundredths of the plastic pounds |
| `Pcr.LbsToKg` | app.py:81 | the kilograms are a thousandth of the grams in the given pounds |
| `Pcr.KgToMetricTons` | app.py:83 | the metric tons are a thousandth of the kilograms |
| `Pcr.PcrPercent` | app.py:74 | the percentage used is the row's "PCR Content %" when present, and 0 when it is missing |
| `Pcr.Calculate` | app.py:73-83 | the plastic pounds hold grams × units; the PCR pounds are the percentage of them; the avoided tons × 10^8 equal grams × units × percent × factor |
| `Pcr.ChainCollapses` | app.py:77-83 | the four conversion steps compose to grams × percent × factor / 10^8 tons |
| `Pcr.CalculateIgnoresPartNumber` | app.py:73-74 | only the row's weight and PCR percentage enter the calculation |
| `Pcr.NoUnitsNoMass` | app.py:77-83 | zero units give zero plastic, zero PCR and zero CO2e |
| `Pcr.MissingPercentMeansNoPcr` | app.py:74 | a missing PCR percentage counts as 0, giving no PCR pounds and no CO2e avoided |
| `Pcr.ZeroFactorAvoidsNothing` | app.py:82-83 | a factor of 0 gives 0 tons avoided |
| `Pcr.PlasticMonotoneInUnits` | app.py:77 | for a non-negative weight, the plastic is non-negative and never decreases as units grow |
| `Pcr.PcrWithinPlastic` | app.py:78 | for a percentage in [0, 100], 0 ≤ PCR pounds ≤ plastic pounds |
| `Pcr.PercentNotClamped` | app.py:78 | a percentage above 100 is not clamped: the PCR pounds exceed the plastic pounds |
| `Pcr.AvoidedNonNegative` | app.py:81-83 | non-negative weight, percentage and factor give a non-negative CO2e figure |
| `App.Evaluate` | app.py:57-118 | the idle prompt shows exactly when the stripped part number is empty or units = 0; "not found" shows exactly when the guard passes and no stored part number strips to the typed one |
| `App.EvaluateFirstMatch` | app.py:64-83 | when the guard passes, the page shows the metrics of the first row whose stripped part number equals the stripped input |
| `App.TypedPaddingIgnored` | app.py:57 | whitespace around the typed part number never changes the outcome |
| `App.EvaluateSeesOnlyLoadedTable` | app.py:34 | two spreadsheets that load to the same table give the same page |
| `App.StoredPaddingIgnored` | app.py:31 | whitespace around a stored part number never changes the outcome |
| `App.LookupIsCaseSensitive` | app.py:65 | matching is exact: "ABC" does not find a row stored as "abc" |
| `App.WorkedExample` | app.py:13-83 | 1000 units of a 50 g, 30 % PCR part at the default factor 1.70 give 50000/453.59237 lb of plastic, 15000/453.59237 lb of PCR and 0.0255 t CO2e, however the part number is padded |
| `App.WorkedExampleMetrics` | app.py:73-83 | the metrics of the worked example, computed from weight and percentage alone |

## Left out

- The Streamlit page is not modelled: the page setup, title, sidebar, metrics, number formatting (`:,.2f`, `:,.3f`) and the methodology popover (app.py:20-21, 40-51, 85-116). They only present results. The widget values become `Evaluate`'s parameters.
- Reading the spreadsheet (`pd.read_excel`) and the `@st.cache_data` memoisation are left out (app.py:27-29, 34). This is file I/O and framework caching. The rows are given as an already-read sequence.
- `astype(str)` on non-text cells is not modelled (app.py:31). Examples are a numeric 3001 becoming "3001", 3001.0 becoming "3001.0" and an empty cell becoming "nan". Part numbers are given as strings.
- Floating-point rounding is not modelled. Every formula is exact `real` arithmetic.
- A missing "Vendor Part Number" column is not modelled. `load_data` would raise a `KeyError` at app.py:31 before any input is read. Every `Part` has a part number, so the model assumes the column is present.
- Missing or non-numeric weights are not modelled: a missing "Item Weight (g)" column (a `KeyError`), a NaN weight, or a cell that `float()` rejects. The weight is a required `real`.
- A non-numeric "PCR Content %" cell that `float()` rejects is not modelled. A missing column and an empty cell both become `None`.
- Evaluate: requires the factor to be at least 0 because the sidebar widget never yields less. The arithmetic in `Pcr` has no such precondition.
