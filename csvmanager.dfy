/**
 * `csv_export(file_name, *lists, titles, separator, decimal_digit,
 * number_format, precision)`: check the titles, turn every column into
 * text (formatted numbers with the chosen decimal mark, or `str` of each
 * element when the column is not numeric), transpose the columns into rows
 * and write the title row followed by the data rows. The model returns the
 * rows handed to `csv.writer` instead of writing the file.
 */
module CsvManager {
  import opened Wrappers

  /** An element of a column or of the titles list: a string or any other Python object. */
  datatype Value = Number(x: real) | Text(s: string)

  /**
   * The conversions the function takes from Python and numpy:
   * `float(v)` as `np.array(data, dtype=float)` applies it (None when that
   * raises), `'{:.pE}'.format(x)` and `'{:.pf}'.format(x)`, `str` of a
   * numpy float and `str` of an element of the column as given.
   */
  datatype Formatter = Formatter(
    toFloat: Value -> Option<real>,
    scientific: (real, nat) -> string,
    fixed: (real, nat) -> string,
    floatStr: real -> string,
    str: Value -> string)

  /** Lines 74, 77 and 86 raise `Exception`; `lists[0]` with no lists raises IndexError. */
  datatype CsvError = TitleNotText | TitleCountMismatch | NoColumns | LengthMismatch

  predicate AllText(titles: seq<Value>)
  {
    forall i :: 0 <= i < |titles| ==> titles[i].Text?
  }

  /** What lines 72-78 let through. */
  predicate TitlesAccepted(titles: Option<seq<Value>>, columnCount: nat)
  {
    titles.Some? ==> AllText(titles.value) && |titles.value| == columnCount
  }

  /** `s.replace('.', d)`. */
  function ReplaceDots(s: string, d: string): string
  {
    if |s| == 0 then "" else (if s[0] == '.' then d else [s[0]]) + ReplaceDots(s[1..], d)
  }

  /** Every element converts to a float, so `np.array(data, dtype=float)` succeeds. */
  predicate Numeric(column: seq<Value>, f: Formatter)
  {
    forall i :: 0 <= i < |column| ==> f.toFloat(column[i]).Some?
  }

  /** `str_format.format(x)` with `str_format` as lines 92-96 build it. */
  function FormatNumber(x: real, precision: nat, numberFormat: string, f: Formatter): string
  {
    if numberFormat == "sci" then f.scientific(x, precision) else f.fixed(x, precision)
  }

  /**
   * Lines 89-102 for one column. A negative precision makes the format
   * string invalid, `format` raises inside the `try`, and the bare
   * `except` then prints the already converted floats with `str`.
   */
  function ConvertColumn(column: seq<Value>, decimalDigit: string, numberFormat: string, precision: int, f: Formatter): (r: seq<string>)
    ensures |r| == |column|
  {
    if Numeric(column, f) then
      if precision >= 0 then
        seq(|column|, i requires 0 <= i < |column| => ReplaceDots(FormatNumber(f.toFloat(column[i]).value, precision, numberFormat, f), decimalDigit))
      else
        seq(|column|, i requires 0 <= i < |column| => f.floatStr(f.toFloat(column[i]).value))
    else
      seq(|column|, i requires 0 <= i < |column| => f.str(column[i]))
  }

  /** `np.array(columns).T.tolist()` for columns of `n` entries each. */
  function Transpose(columns: seq<seq<string>>, n: nat): (rows: seq<seq<string>>)
    requires forall j :: 0 <= j < |columns| ==> |columns[j]| == n
    ensures |rows| == n && forall i :: 0 <= i < n ==> |rows[i]| == |columns|
  {
    seq(n, i requires 0 <= i < n => seq(|columns|, j requires 0 <= j < |columns| => columns[j][i]))
  }

  function TitleRow(titles: seq<Value>): (r: seq<string>)
    requires AllText(titles)
    ensures |r| == |titles|
  {
    seq(|titles|, i requires 0 <= i < |titles| => titles[i].s)
  }

  /**
   * The rows `csv_export` writes, in order: the title row when titles are
   * given, then row `i` holding the `i`-th converted entry of every column.
   */
  method CsvExport(columns: seq<seq<Value>>, titles: Option<seq<Value>>, decimalDigit: string,
                   numberFormat: string, precision: int, f: Formatter)
    returns (r: Result<seq<seq<string>>, CsvError>)
    ensures r == Failure(TitleNotText) <==> titles.Some? && !AllText(titles.value)
    ensures r == Failure(TitleCountMismatch) <==> titles.Some? && AllText(titles.value) && |titles.value| != |columns|
    ensures r == Failure(NoColumns) <==> TitlesAccepted(titles, |columns|) && |columns| == 0
    ensures r == Failure(LengthMismatch) <==>
      TitlesAccepted(titles, |columns|) && exists j :: 0 < j < |columns| && |columns[j]| != |columns[0]|
    ensures r.Success? ==> |columns| > 0 && |r.value| == (if titles.Some? then 1 else 0) + |columns[0]|
    ensures r.Success? && titles.Some? ==> r.value[0] == TitleRow(titles.value)
    ensures r.Success? ==> var t := if titles.Some? then 1 else 0;
      forall i, j :: 0 <= i < |columns[0]| && 0 <= j < |columns| ==>
        |r.value[t + i]| == |columns| &&
        r.value[t + i][j] == ConvertColumn(columns[j], decimalDigit, numberFormat, precision, f)[i]
  {
    if titles.Some? {
      if !AllText(titles.value) {
        return Failure(TitleNotText);
      }
      if |titles.value| != |columns| {
        return Failure(TitleCountMismatch);
      }
    }
    if |columns| == 0 {
      return Failure(NoColumns);
    }
    var validation := |columns[0]|;
    var dataMatrix: seq<seq<string>> := [];
    for j := 0 to |columns|
      invariant |dataMatrix| == j
      invariant forall k :: 0 <= k < j ==> |columns[k]| == validation
      invariant forall k :: 0 <= k < j ==> dataMatrix[k] == ConvertColumn(columns[k], decimalDigit, numberFormat, precision, f)
    {
      if |columns[j]| != validation {
        return Failure(LengthMismatch);
      }
      dataMatrix := dataMatrix + [ConvertColumn(columns[j], decimalDigit, numberFormat, precision, f)];
    }
    var rows := Transpose(dataMatrix, validation);
    if titles.Some? {
      r := Success([TitleRow(titles.value)] + rows);
    } else {
      r := Success(rows);
    }
  }

  // ---------------------------------------------------------------------
  // Properties of the conversions

  /** Transposing back recovers the columns. */
  lemma TransposeTwice(columns: seq<seq<string>>, n: nat)
    requires |columns| > 0 || n == 0
    requires forall j :: 0 <= j < |columns| ==> |columns[j]| == n
    ensures Transpose(Transpose(columns, n), |columns|) == columns
  {
    var back := Transpose(Transpose(columns, n), |columns|);
    forall j | 0 <= j < |columns| ensures back[j] == columns[j] {
    }
  }

  /** With a one-character decimal mark every `.` becomes that character and nothing else changes. */
  lemma {:induction false} ReplaceDotsPointwise(s: string, c: char)
    ensures |ReplaceDots(s, [c])| == |s|
    ensures forall i :: 0 <= i < |s| ==> ReplaceDots(s, [c])[i] == if s[i] == '.' then c else s[i]
  {
    if |s| > 0 {
      ReplaceDotsPointwise(s[1..], c);
    }
  }

  /** The default decimal mark `'.'` leaves the formatted number as it is. */
  lemma {:induction false} ReplaceDotsDefault(s: string)
    ensures ReplaceDots(s, ".") == s
  {
    if |s| > 0 {
      ReplaceDotsDefault(s[1..]);
      assert s == [s[0]] + s[1..];
    }
  }

  /** A decimal mark without `.` leaves no `.` in the text. */
  lemma {:induction false} ReplaceDotsRemovesDots(s: string, d: string)
    requires '.' !in d
    ensures '.' !in ReplaceDots(s, d)
  {
    if |s| > 0 {
      ReplaceDotsRemovesDots(s[1..], d);
    }
  }

  /**
   * In a numeric column printed with a valid precision and a decimal mark
   * other than `.` (the `','` of the documented Pt-Br use), no cell keeps
   * a `.`.
   */
  lemma NumericCellsUseDecimalMark(column: seq<Value>, decimalDigit: string, numberFormat: string, precision: int, f: Formatter)
    requires Numeric(column, f) && precision >= 0 && '.' !in decimalDigit
    ensures forall i :: 0 <= i < |column| ==> '.' !in ConvertColumn(column, decimalDigit, numberFormat, precision, f)[i]
  {
    forall i | 0 <= i < |column|
      ensures '.' !in ConvertColumn(column, decimalDigit, numberFormat, precision, f)[i]
    {
      ReplaceDotsRemovesDots(FormatNumber(f.toFloat(column[i]).value, precision, numberFormat, f), decimalDigit);
    }
  }
}
