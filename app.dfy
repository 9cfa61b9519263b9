/** One run of the calculator script (app.py lines 57-118): the typed part
    number is stripped, the guard decides whether anything is computed, the
    loaded table is searched, and the found row is turned into metrics. */
module App {
  import opened Text
  import opened Catalog
  import opened Pcr

  /** What the page shows: the idle prompt, "Part number not found.", or
      the results for the first matching row. */
  datatype Outcome = Prompt | NotFound | Results(metrics: Metrics)

  /** `rows` is the spreadsheet as read, `typed` the text in the "Vendor Part
      Number" box, `units` the "Units purchased" value and `factor` the
      sidebar's kg CO2e avoided per kg PCR (both widgets have minimum 0).
      The prompt shows exactly when the box is blank or no units are
      entered; "not found" exactly when otherwise no stored part number
      strips to the typed one. Matching is case-sensitive. */
  function Evaluate(rows: seq<Part>, typed: string, units: nat, factor: real): (o: Outcome)
    requires factor >= 0.0
    ensures o.Prompt? <==> AllSpace(typed) || units == 0
    ensures o.NotFound? <==>
      (!AllSpace(typed) && units > 0 && forall i :: 0 <= i < |rows| ==> Strip(rows[i].partNumber) != Strip(typed))
  {
    var part := Strip(typed);
    StripEmptyIffAllSpace(typed);
    if part != [] && units > 0 then
      var df := Load(rows);
      LookupNoneIffAbsent(df, part);
      match Lookup(df, part)
      case None => NotFound
      case Some(r) => Results(Calculate(r, units, factor))
    else
      Prompt
  }

  /** When the guard passes and row `i` is the first whose stripped part
      number equals the stripped input, the page shows that row's metrics:
      duplicates further down the table are never used. */
  lemma EvaluateFirstMatch(rows: seq<Part>, typed: string, units: nat, factor: real, i: nat)
    requires factor >= 0.0
    requires !AllSpace(typed) && units > 0
    requires i < |rows| && Strip(rows[i].partNumber) == Strip(typed)
    requires forall j :: 0 <= j < i ==> Strip(rows[j].partNumber) != Strip(typed)
    ensures Evaluate(rows, typed, units, factor) == Results(Calculate(rows[i], units, factor))
  {
    var df := Load(rows);
    var part := Strip(typed);
    StripEmptyIffAllSpace(typed);
    assert df[i].partNumber == part;
    assert forall j :: 0 <= j < i ==> df[j].partNumber != part;
    LookupFirstMatch(df, part, i);
    CalculateIgnoresPartNumber(df[i], rows[i], units, factor);
  }

  /** Typing the part number with extra leading or trailing whitespace
      changes nothing on the page. */
  lemma TypedPaddingIgnored(rows: seq<Part>, w1: string, typed: string, w2: string, units: nat, factor: real)
    requires factor >= 0.0
    requires AllSpace(w1) && AllSpace(w2)
    ensures Evaluate(rows, w1 + typed + w2, units, factor) == Evaluate(rows, typed, units, factor)
  {
    StripIgnoresPadding(w1, typed, w2);
  }

  /** Whitespace around a part number stored in the spreadsheet changes
      nothing on the page either. */
  lemma StoredPaddingIgnored(rows: seq<Part>, i: nat, w1: string, w2: string, typed: string, units: nat, factor: real)
    requires factor >= 0.0
    requires i < |rows| && AllSpace(w1) && AllSpace(w2)
    ensures Evaluate(rows[i := rows[i].(partNumber := w1 + rows[i].partNumber + w2)], typed, units, factor)
         == Evaluate(rows, typed, units, factor)
  {
    LoadIgnoresPadding(rows, i, w1, w2);
    EvaluateSeesOnlyLoadedTable(rows[i := rows[i].(partNumber := w1 + rows[i].partNumber + w2)], rows, typed, units, factor);
  }

  /** The page depends on the spreadsheet only through the loaded table. */
  lemma EvaluateSeesOnlyLoadedTable(rows1: seq<Part>, rows2: seq<Part>, typed: string, units: nat, factor: real)
    requires factor >= 0.0
    requires Load(rows1) == Load(rows2)
    ensures Evaluate(rows1, typed, units, factor) == Evaluate(rows2, typed, units, factor)
  {
  }

  /** The comparison is exact after stripping: "ABC" does not find "abc". */
  lemma LookupIsCaseSensitive()
    ensures Evaluate([Part("abc", 50.0, None)], "ABC", 1000, DEFAULT_CO2E_AVOIDED_KG_PER_KG_PCR) == NotFound
  {
    StrippedIsFixed("abc");
    StrippedIsFixed("ABC");
    assert "abc"[0] != "ABC"[0];
  }

  /** 1000 units of a 50 g part with 30 % PCR at the default factor of 1.70,
      typed with any surrounding whitespace: 50 kg of plastic, 15 kg of it
      PCR, 25.5 kg = 0.0255 t CO2e avoided. */
  lemma WorkedExample(partNumber: string, w1: string, w2: string)
    requires partNumber != [] && IsStripped(partNumber) && AllSpace(w1) && AllSpace(w2)
    ensures Evaluate([Part(partNumber, 50.0, Some(30.0))], w1 + partNumber + w2, 1000, DEFAULT_CO2E_AVOIDED_KG_PER_KG_PCR)
         == Results(Metrics(50000.0 / GRAMS_PER_LB, 15000.0 / GRAMS_PER_LB, 0.0255))
  {
    var row := Part(partNumber, 50.0, Some(30.0));
    var typed := w1 + partNumber + w2;
    StripPadded(w1, partNumber, w2);
    StrippedIsFixed(partNumber);
    StripEmptyIffAllSpace(typed);
    EvaluateFirstMatch([row], typed, 1000, DEFAULT_CO2E_AVOIDED_KG_PER_KG_PCR, 0);
    WorkedExampleMetrics(row);
  }

  lemma WorkedExampleMetrics(row: Part)
    requires row.grams == 50.0 && row.pcrPercent == Some(30.0)
    ensures Calculate(row, 1000, DEFAULT_CO2E_AVOIDED_KG_PER_KG_PCR)
         == Metrics(50000.0 / GRAMS_PER_LB, 15000.0 / GRAMS_PER_LB, 0.0255)
  {
    var m := Calculate(row, 1000, DEFAULT_CO2E_AVOIDED_KG_PER_KG_PCR);
    assert PcrPercent(row) == 30.0;
    assert m.plasticLbs * GRAMS_PER_LB == 50000.0;
    assert m.pcrLbs * 100.0 == m.plasticLbs * 30.0;
    assert m.co2eAvoidedMetricTons * 100000000.0 == 50.0 * 1000.0 * 30.0 * 1.70;
  }
}
