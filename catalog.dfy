/** The parts spreadsheet as the calculator holds it in memory, and the
    lookup of one vendor part number in it (app.py, load_data and the
    filter-then-first-row lookup). */
module Catalog {
  import opened Text

  datatype Option<T> = None | Some(value: T)

  /** One spreadsheet row: "Vendor Part Number", "Item Weight (g)" and the
      optional "PCR Content %" (None when the column is missing or the cell
      is empty). */
  datatype Part = Part(partNumber: string, grams: real, pcrPercent: Option<real>)

  /** load_data: every stored part number is stripped; nothing else about a
      row changes, and rows keep their order. */
  function Load(rows: seq<Part>): (df: seq<Part>)
    ensures |df| == |rows|
    ensures forall i :: 0 <= i < |rows| ==>
      IsStripped(df[i].partNumber) && df[i].grams == rows[i].grams && df[i].pcrPercent == rows[i].pcrPercent
    ensures forall i :: 0 <= i < |rows| ==> df[i].partNumber == Strip(rows[i].partNumber)
  {
    seq(|rows|, i requires 0 <= i < |rows| => rows[i].(partNumber := Strip(rows[i].partNumber)))
  }

  /** Loading an already loaded table changes nothing. */
  lemma LoadIdempotent(rows: seq<Part>)
    ensures Load(Load(rows)) == Load(rows)
  {
    var df := Load(rows);
    forall i | 0 <= i < |df| ensures Load(df)[i] == df[i] {
      StripIdempotent(rows[i].partNumber);
    }
  }

  /** A stored part number padded with whitespace loads to the same row as
      the unpadded one. */
  lemma LoadIgnoresPadding(rows: seq<Part>, i: nat, w1: string, w2: string)
    requires i < |rows| && AllSpace(w1) && AllSpace(w2)
    ensures Load(rows[i := rows[i].(partNumber := w1 + rows[i].partNumber + w2)]) == Load(rows)
  {
    var padded := rows[i := rows[i].(partNumber := w1 + rows[i].partNumber + w2)];
    forall j | 0 <= j < |rows| ensures Load(padded)[j] == Load(rows)[j] {
      if j == i {
        StripIgnoresPadding(w1, rows[i].partNumber, w2);
      }
    }
  }

  /** `df[df["Vendor Part Number"] == part]`: the rows whose part number
      equals `part` exactly, in table order. Every selected row is in the
      table and matches; every matching row of the table is selected. */
  function Select(df: seq<Part>, part: string): (rows: seq<Part>)
    ensures |rows| <= |df|
    ensures forall r :: r in rows ==> r in df && r.partNumber == part
    ensures forall i :: 0 <= i < |df| && df[i].partNumber == part ==> df[i] in rows
  {
    if df == [] then []
    else (if df[0].partNumber == part then [df[0]] else []) + Select(df[1..], part)
  }

  /** `row.iloc[0]` when `row` is not empty: the first selected row, or None
      for "Part number not found." A found row matches the query. */
  function Lookup(df: seq<Part>, part: string): (r: Option<Part>)
    ensures r.Some? ==> r.value in df && r.value.partNumber == part
  {
    var rows := Select(df, part);
    if rows == [] then None else Some(rows[0])
  }

  /** "Not found" exactly when no row's part number equals the query. */
  lemma LookupNoneIffAbsent(df: seq<Part>, part: string)
    ensures Lookup(df, part).None? <==> forall i :: 0 <= i < |df| ==> df[i].partNumber != part
  {
  }

  /** Several rows may share a part number: the first one in table order
      wins. */
  lemma {:induction false} SelectStartsWithFirstMatch(df: seq<Part>, part: string, i: nat)
    requires i < |df| && df[i].partNumber == part
    requires forall j :: 0 <= j < i ==> df[j].partNumber != part
    ensures Select(df, part) != [] && Select(df, part)[0] == df[i]
  {
    if i > 0 {
      SelectStartsWithFirstMatch(df[1..], part, i - 1);
    }
  }

  lemma LookupFirstMatch(df: seq<Part>, part: string, i: nat)
    requires i < |df| && df[i].partNumber == part
    requires forall j :: 0 <= j < i ==> df[j].partNumber != part
    ensures Lookup(df, part) == Some(df[i])
  {
    SelectStartsWithFirstMatch(df, part, i);
  }
}
