/**
 * What `step_import` should produce from an LTspice export: each line of
 * the file is the row of numbers `np.fromstring(line, sep='\t')` parses
 * from it, a line is data exactly when that row is non-empty, and the data
 * lines fall into one table per maximal run of consecutive data lines (one
 * per `.step` of the simulation).
 */
module StepBlocks {
  import opened Wrappers

  /** The numbers parsed from one line of the file. */
  type Row = seq<real>

  /** `np.vstack(rows)`: the rows one above the other. */
  type Table = seq<Row>

  /** `np.vstack` raises on rows of different widths and on an empty list of rows. */
  datatype ImportError = RaggedTable | NothingToStack

  predicate IsData(line: Row)
  {
    |line| > 0
  }

  /** `np.vstack` accepts the rows: they all have the same width. */
  predicate Rectangular(t: Table)
  {
    forall i, j :: 0 <= i < |t| && 0 <= j < |t| ==> |t[i]| == |t[j]|
  }

  predicate AllRectangular(ts: seq<Table>)
  {
    forall i :: 0 <= i < |ts| ==> Rectangular(ts[i])
  }

  /** The file ends in a data line, so the last table is still pending when the lines run out. */
  predicate EndsWithData(lines: seq<Row>)
  {
    |lines| > 0 && IsData(lines[|lines| - 1])
  }

  /** The maximal runs of consecutive data lines, in file order. */
  function Runs(lines: seq<Row>): (r: seq<Table>)
    ensures EndsWithData(lines) ==> |r| > 0
  {
    if |lines| == 0 then []
    else
      var prev := Runs(lines[..|lines| - 1]);
      var line := lines[|lines| - 1];
      if !IsData(line) then prev
      else if EndsWithData(lines[..|lines| - 1]) then prev[..|prev| - 1] + [prev[|prev| - 1] + [line]]
      else prev + [[line]]
  }

  /** The data lines of the file, in order. */
  function DataLines(lines: seq<Row>): seq<Row>
  {
    if |lines| == 0 then []
    else DataLines(lines[..|lines| - 1]) + (if IsData(lines[|lines| - 1]) then [lines[|lines| - 1]] else [])
  }

  function Flatten(ts: seq<Table>): seq<Row>
  {
    if |ts| == 0 then [] else Flatten(ts[..|ts| - 1]) + ts[|ts| - 1]
  }

  /** The number of data lines that open a run: the first line, or one that follows a separator. */
  function RunStarts(lines: seq<Row>): nat
  {
    if |lines| == 0 then 0
    else RunStarts(lines[..|lines| - 1]) + (if IsData(lines[|lines| - 1]) && !EndsWithData(lines[..|lines| - 1]) then 1 else 0)
  }

  function Blanks(n: nat): (r: seq<Row>)
    ensures |r| == n && forall i :: 0 <= i < n ==> r[i] == []
  {
    if n == 0 then [] else Blanks(n - 1) + [[]]
  }

  /** `np.vstack(rows)`: the table of the rows, or the ValueError numpy raises. */
  function Vstack(rows: seq<Row>): (r: Result<Table, ImportError>)
    ensures r.Success? <==> |rows| > 0 && Rectangular(rows)
    ensures r.Success? ==> r.value == rows
    ensures r.Failure? ==> (r.error == NothingToStack <==> |rows| == 0)
  {
    if |rows| == 0 then Failure(NothingToStack)
    else if !Rectangular(rows) then Failure(RaggedTable)
    else Success(rows)
  }

  // ---------------------------------------------------------------------
  // Properties of the runs

  lemma {:induction false} FlattenSnoc(ts: seq<Table>, t: Table)
    ensures Flatten(ts + [t]) == Flatten(ts) + t
  {
    assert (ts + [t])[..|ts|] == ts;
  }

  lemma {:induction false} FlattenLastExtended(ts: seq<Table>, row: Row)
    requires |ts| > 0
    ensures Flatten(ts[..|ts| - 1] + [ts[|ts| - 1] + [row]]) == Flatten(ts) + [row]
  {
    FlattenSnoc(ts[..|ts| - 1], ts[|ts| - 1] + [row]);
    assert ts == ts[..|ts| - 1] + [ts[|ts| - 1]];
    FlattenSnoc(ts[..|ts| - 1], ts[|ts| - 1]);
  }

  /** Reading the tables one after the other gives back exactly the data lines. */
  lemma {:induction false} RunsFlatten(lines: seq<Row>)
    ensures Flatten(Runs(lines)) == DataLines(lines)
  {
    if |lines| > 0 {
      var init := lines[..|lines| - 1];
      var line := lines[|lines| - 1];
      RunsFlatten(init);
      if IsData(line) {
        if EndsWithData(init) {
          FlattenLastExtended(Runs(init), line);
        } else {
          FlattenSnoc(Runs(init), [line]);
        }
      }
    }
  }

  /** Every table holds at least one row, and every row at least one number. */
  lemma {:induction false} RunsNonEmpty(lines: seq<Row>)
    ensures forall i :: 0 <= i < |Runs(lines)| ==> |Runs(lines)[i]| > 0
    ensures forall i, j :: 0 <= i < |Runs(lines)| && 0 <= j < |Runs(lines)[i]| ==> IsData(Runs(lines)[i][j])
  {
    if |lines| > 0 {
      var init := lines[..|lines| - 1];
      RunsNonEmpty(init);
      var prev, r := Runs(init), Runs(lines);
      if IsData(lines[|lines| - 1]) && EndsWithData(init) {
        assert forall i :: 0 <= i < |prev| - 1 ==> r[i] == prev[i];
      } else if IsData(lines[|lines| - 1]) {
        assert forall i :: 0 <= i < |prev| ==> r[i] == prev[i];
      }
    }
  }

  /** There are as many tables as runs of data lines begin. */
  lemma {:induction false} RunsCount(lines: seq<Row>)
    ensures |Runs(lines)| == RunStarts(lines)
  {
    if |lines| > 0 {
      RunsCount(lines[..|lines| - 1]);
    }
  }

  /** One more line: a separator changes nothing, a data line extends the open run or opens a new one. */
  lemma RunsSnoc(lines: seq<Row>, line: Row)
    ensures Runs(lines + [line]) ==
      if !IsData(line) then Runs(lines)
      else if EndsWithData(lines) then Runs(lines)[..|Runs(lines)| - 1] + [Runs(lines)[|Runs(lines)| - 1] + [line]]
      else Runs(lines) + [[line]]
  {
    assert (lines + [line])[..|lines|] == lines;
  }

  /** After a separator the file splits in two: its tables are those of the part before followed by those of the rest. */
  lemma {:induction false} RunsAppend(front: seq<Row>, back: seq<Row>)
    requires !EndsWithData(front)
    ensures Runs(front + back) == Runs(front) + Runs(back)
  {
    if |back| == 0 {
      assert front + back == front;
    } else {
      var init, line := back[..|back| - 1], back[|back| - 1];
      assert back == init + [line];
      assert front + back == (front + init) + [line];
      RunsAppend(front, init);
      RunsSnoc(front + init, line);
      RunsSnoc(init, line);
      if IsData(line) {
        if EndsWithData(init) {
          assert EndsWithData(front + init);
          ExtendLastAppend(Runs(front), Runs(init), line);
        } else {
          assert !EndsWithData(front + init);
        }
      }
    }
  }

  lemma ExtendLastAppend(p: seq<Table>, q: seq<Table>, line: Row)
    requires |q| > 0
    ensures (p + q)[..|p + q| - 1] + [(p + q)[|p + q| - 1] + [line]] == p + (q[..|q| - 1] + [q[|q| - 1] + [line]])
  {
    assert (p + q)[..|p + q| - 1] == p + q[..|q| - 1];
  }

  lemma {:induction false} TrailingBlanks(lines: seq<Row>, n: nat)
    ensures Runs(lines + Blanks(n)) == Runs(lines)
  {
    if n > 0 {
      var blank: Row := [];
      assert lines + Blanks(n) == (lines + Blanks(n - 1)) + [blank];
      RunsSnoc(lines + Blanks(n - 1), blank);
      TrailingBlanks(lines, n - 1);
    } else {
      assert lines + Blanks(n) == lines;
    }
  }

  /** A run of several separator lines splits the tables exactly as a single one does. */
  lemma SeparatorsCollapse(front: seq<Row>, back: seq<Row>, n: nat)
    requires n >= 1
    ensures Runs(front + Blanks(n) + back) == Runs(front + [[]] + back)
  {
    assert !EndsWithData(front + Blanks(n));
    assert !EndsWithData(front + [[]]);
    RunsAppend(front + Blanks(n), back);
    RunsAppend(front + [[]], back);
    TrailingBlanks(front, n);
    TrailingBlanks(front, 1);
    assert Blanks(1) == [[]];
  }

  /** A table flushed at a separator is one of the file's tables. */
  lemma FlushedRun(lines: seq<Row>, k: nat)
    requires k < |lines| && !IsData(lines[k])
    ensures Runs(lines[..k + 1]) <= Runs(lines)
  {
    assert lines == lines[..k + 1] + lines[k + 1..];
    RunsAppend(lines[..k + 1], lines[k + 1..]);
  }
}
