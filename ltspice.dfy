/**
 * `step_import` of ltspice.py, the earlier copy of the same reader: the
 * same loop as in ltscompat.py, which also counts in `table_count` the
 * tables it stacks at separator lines. The source never returns the
 * counter; the model hands it back so that its meaning can be stated.
 */
module LtSpice {
  import opened Wrappers
  import opened StepBlocks

  /**
   * `lines` are the rows `np.fromstring` parses from the lines of the file,
   * in order. The result is one table per run of data lines, or the error
   * `np.vstack` raises: at a run whose rows differ in width, or at the end
   * when the last line of the file is not a data line (the pending list is
   * then empty).
   */
  method StepImport(lines: seq<Row>) returns (r: Result<seq<Table>, ImportError>, tableCount: nat)
    ensures r == Failure(RaggedTable) <==> !AllRectangular(Runs(lines))
    ensures r == Failure(NothingToStack) <==> AllRectangular(Runs(lines)) && !EndsWithData(lines)
    ensures r.Success? ==> r.value == Runs(lines)
    ensures r.Success? ==> tableCount == |r.value| - 1
  {
    var tables: seq<Table> := [];
    var pending: Table := [];
    tableCount := 0;
    var valid := false;
    var k := 0;
    while k < |lines|
      invariant 0 <= k <= |lines|
      invariant valid <==> EndsWithData(lines[..k])
      invariant valid <==> |pending| > 0
      invariant Runs(lines[..k]) == tables + (if valid then [pending] else [])
      invariant AllRectangular(tables)
      invariant tableCount == |tables|
    {
      var line := lines[k];
      assert lines[..k + 1] == lines[..k] + [line];
      RunsSnoc(lines[..k], line);
      if |line| > 0 {
        if valid {
          assert (tables + [pending])[..|tables|] == tables;
        } else {
          assert pending + [line] == [line];
        }
        valid := true;
        pending := pending + [line];
      } else {
        if valid {
          var stacked := Vstack(pending);
          if stacked.Failure? {
            FlushedRun(lines, k);
            assert Runs(lines)[|tables|] == pending;
            return Failure(stacked.error), tableCount;
          }
          tables := tables + [stacked.value];
          pending := [];
          tableCount := tableCount + 1;
        }
        valid := false;
      }
      k := k + 1;
    }
    assert lines[..k] == lines;
    var stacked := Vstack(pending);
    if stacked.Failure? {
      if |pending| > 0 {
        assert Runs(lines)[|tables|] == pending;
      }
      return Failure(stacked.error), tableCount;
    }
    r := Success(tables + [stacked.value]);
  }
}
