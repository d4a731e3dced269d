/** The descriptive texts written to the spreadsheets: the year statement
    built from the earliest and latest dates, and the extent statement built
    from a file count and a byte total. */
module Statements {
  import opened Outcomes
  import opened PyStr
  import opened Sizes

  /** The year statement: the year of `earliest` alone when both years
      agree, else both years with `sep` between them ("-" in the analyzer,
      " - " in the stand-alone scripts). A year is the first four
      characters. */
  function YearStatement(earliest: string, latest: string, sep: string): (r: string)
    requires |sep| > 0
    ensures StartsWith(r, Take(earliest, 4))
    ensures r == Take(earliest, 4) <==> Take(earliest, 4) == Take(latest, 4)
  {
    var y1, y2 := Take(earliest, 4), Take(latest, 4);
    if y1 == y2 then y1 else y1 + sep + y2
  }

  /** Reads the two years back out of a statement whose years have four
      characters each. */
  function YearsOf(statement: string, sep: string): (string, string) {
    if |statement| <= 4 then (statement, statement)
    else if |statement| < 4 + |sep| then (statement[..4], "")
    else (statement[..4], statement[4 + |sep|..])
  }

  /** The statement is lossless: both years can be read back from it. */
  lemma YearStatementReadsBack(earliest: string, latest: string, sep: string)
    requires |sep| > 0 && |earliest| >= 4 && |latest| >= 4
    ensures YearsOf(YearStatement(earliest, latest, sep), sep) == (Take(earliest, 4), Take(latest, 4))
  {
    var r := YearStatement(earliest, latest, sep);
    var y1, y2 := Take(earliest, 4), Take(latest, 4);
    if y1 != y2 {
      assert r[..4] == y1;
      assert r[4 + |sep|..] == y2;
    }
  }

  /** The analyzer's extent: always "<count> digital files (<size>)". The
      size text can raise IndexError (see `HumanReadableSize`). */
  function AnalyzerExtent(count: nat, bytes: nat): (r: Result<string>)
    ensures r.Ok? <==> HumanReadableSize(bytes, HalfEven).Ok?
    ensures r.Ok? ==> EndsWith(r.value, " digital files (" + HumanReadableSize(bytes, HalfEven).value + ")")
  {
    var size :- HumanReadableSize(bytes, HalfEven);
    Ok(PluralExtent(count, size))
  }

  /** "<count> digital files (<size>)". */
  function PluralExtent(count: nat, size: string): (r: string)
    ensures EndsWith(r, " digital files (" + size + ")")
  {
    var tail := " digital files (" + size + ")";
    assert (NatToString(count) + tail)[|NatToString(count)|..] == tail;
    NatToString(count) + tail
  }

  lemma PluralExtentCount(count: nat, size: string)
    ensures CountOf(PluralExtent(count, size)) == Some(count)
  {
    var rest := "digital files (" + size + ")";
    assert " digital files (" + size + ")" == " " + rest by {
      assert " digital files (" == " " + "digital files (";
    }
    assert PluralExtent(count, size) == NatToString(count) + " " + rest;
    CountOfText(count, rest);
  }

  /** The stand-alone scripts' extent: "EMPTY" with no files, the singular
      for one file, the plural otherwise. The size text is computed first,
      so an unnamed size raises even for an empty disk. */
  function LegacyExtent(count: nat, bytes: nat, mode: Rounding): (r: Result<string>)
    ensures r.Ok? <==> HumanReadableSize(bytes, mode).Ok?
    ensures r.Ok? && count == 0 ==> r.value == "EMPTY"
    ensures r.Ok? && count == 1 ==> r.value == "1 digital file (" + HumanReadableSize(bytes, mode).value + ")"
    ensures r.Ok? && count > 1 ==>
              EndsWith(r.value, " digital files (" + HumanReadableSize(bytes, mode).value + ")")
  {
    var size :- HumanReadableSize(bytes, mode);
    if count == 1 then Ok("1 digital file (" + size + ")")
    else if count == 0 then Ok("EMPTY")
    else Ok(PluralExtent(count, size))
  }

  /** The number in front of an extent, read back as a decimal. */
  function CountOf(extent: string): Option<nat> {
    var digits := Before(extent, " ");
    if |digits| > 0 && AllDigits(digits) then Some(DecimalValue(digits)) else None
  }

  /** The count before the first space of "<count> <rest>" reads back. */
  lemma CountOfText(n: nat, rest: string)
    ensures CountOf(NatToString(n) + " " + rest) == Some(n)
  {
    var t := NatToString(n) + " " + rest;
    FirstSpaceAfterDigits(NatToString(n), rest);
    assert t[..|NatToString(n)|] == NatToString(n);
    DecimalRoundTrip(n);
  }

  /** Every extent the analyzer writes states the file count it was given. */
  lemma AnalyzerExtentCount(count: nat, bytes: nat)
    requires AnalyzerExtent(count, bytes).Ok?
    ensures CountOf(AnalyzerExtent(count, bytes).value) == Some(count)
  {
    PluralExtentCount(count, HumanReadableSize(bytes, HalfEven).value);
  }

  /** Every non-empty extent the scripts write states the file count. */
  lemma LegacyExtentCount(count: nat, bytes: nat, mode: Rounding)
    requires LegacyExtent(count, bytes, mode).Ok? && count > 0
    ensures CountOf(LegacyExtent(count, bytes, mode).value) == Some(count)
  {
    var size := HumanReadableSize(bytes, mode).value;
    if count == 1 {
      OneFileCount(size);
    } else {
      PluralExtentCount(count, size);
    }
  }

  lemma OneFileCount(size: string)
    ensures CountOf("1 digital file (" + size + ")") == Some(1)
  {
    assert NatToString(1) == "1";
    assert "1 digital file (" + size + ")" == NatToString(1) + " " + ("digital file (" + size + ")");
    CountOfText(1, "digital file (" + size + ")");
  }

  /** "EMPTY" states no count. */
  lemma EmptyHasNoCount()
    ensures CountOf("EMPTY") == None
  {
    assert !Contains("EMPTY", " ") by {
      MissingChar("EMPTY", " ", 0);
    }
    assert !IsDigit("EMPTY"[0]);
  }

  /** The messages standing in for the format list when the report is
      missing or unreadable: the analyzer's and the stand-alone scripts'. */
  const NoFormats: string := "ERROR! No Brunnhilde formats.csv file to pull formats from."
  const ScriptNoFormats: string := "ERROR! No formats.csv file to pull formats from."

  /** The first column of each row; a row without columns raises, which
      ends the list with the message `missing`. */
  function FirstColumns(rows: seq<seq<string>>, missing: string): (r: seq<string>)
    ensures |r| <= |rows|
    decreases |rows|
  {
    if |rows| == 0 then []
    else if |rows[0]| == 0 then [missing]
    else [rows[0][0]] + FirstColumns(rows[1..], missing)
  }

  /** The formats named by the report: the first column of at most five
      rows after the header, or `missing` when the report cannot be read
      (also when it has no header row). */
  function Formats(csv: Option<seq<seq<string>>>, missing: string): (r: seq<string>)
    ensures |r| <= 5
    ensures csv.None? ==> r == [missing]
  {
    match csv
    case None => [missing]
    case Some(rows) =>
      if |rows| == 0 then [missing]
      else
        var data := rows[1..];
        FirstColumns(if |data| <= 5 then data else data[..5], missing)
  }

  /** Every row of a well-formed report contributes its first column. */
  lemma {:induction false} FirstColumnsOfFullRows(rows: seq<seq<string>>, missing: string)
    requires forall i :: 0 <= i < |rows| ==> |rows[i]| > 0
    ensures |FirstColumns(rows, missing)| == |rows|
    ensures forall i :: 0 <= i < |rows| ==> FirstColumns(rows, missing)[i] == rows[i][0]
    decreases |rows|
  {
    if |rows| > 0 {
      FirstColumnsOfFullRows(rows[1..], missing);
    }
  }

  /** A well-formed report yields the first column of its first five
      data rows, in order. */
  lemma FormatsOfFullReport(rows: seq<seq<string>>, missing: string)
    requires |rows| > 0 && forall i :: 1 <= i < |rows| ==> |rows[i]| > 0
    ensures var n := if |rows| - 1 <= 5 then |rows| - 1 else 5;
            && |Formats(Some(rows), missing)| == n
            && forall i :: 0 <= i < n ==> Formats(Some(rows), missing)[i] == rows[i + 1][0]
  {
    var data := rows[1..];
    var top := if |data| <= 5 then data else data[..5];
    FirstColumnsOfFullRows(top, missing);
  }

  /** An empty first column is shown as "Unidentified". */
  function Identified(xs: seq<string>): (r: seq<string>)
    ensures |r| == |xs|
    ensures forall i :: 0 <= i < |xs| ==> r[i] == (if xs[i] == "" then "Unidentified" else xs[i])
  {
    seq(|xs|, i requires 0 <= i < |xs| => if xs[i] == "" then "Unidentified" else xs[i])
  }

  /** The comma-separated format list of the scope notes. */
  function FormatList(csv: Option<seq<seq<string>>>, missing: string): string {
    Join(Identified(Formats(csv, missing)), ", ")
  }
}
