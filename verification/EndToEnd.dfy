/** From the rows that were ever added to a table to the rows a pipeline of scans returns. */
module EndToEnd {
  import opened Sequences
  import opened Values
  import opened Storage
  import opened TableRuns
  import opened ScanTheory
  import TableObjects
  import TableScan
  import Interleaving
  import opened Wrappers

  /** Only chunks that hold their values themselves are emplaced. */
  ghost predicate DataOps(ops: seq<Op>, width: nat) {
    forall i :: 0 <= i < |ops| && ops[i].EmplaceOp? ==> DataChunk(ops[i].chunk, width)
  }

  ghost predicate DataState(s: TableState) {
    && Inv(s) && Bounded(s.table) && DataTable(s.table)
    && 0 < s.table.chunkSize <= MAX_CHUNK_ROWS
  }

  lemma AppendKeepsData(c: Chunk, row: seq<Value>, width: nat)
    requires DataChunk(c, width) && Accepts(c, row) && RowCount(c) < MAX_CHUNK_ROWS
    ensures DataChunk(AppendToChunk(c, row), width)
  {}

  lemma EmptyChunkIsData(width: nat)
    ensures DataChunk(EmptyChunk(width), width)
  {}

  lemma AppendStepKeepsData(s: TableState, row: seq<Value>)
    requires DataState(s) && Enabled(s, AppendOp(row))
    ensures DataTable(Append(s, row).table) && Append(s, row).table.columns == s.table.columns
  {
    var width := |s.table.columns|;
    EmptyChunkIsData(width);
    var ready := ReadyToAppend(s);
    var c := ready.CurrentChunk();
    assert DataChunk(c, width) && RowCount(c) < MAX_CHUNK_ROWS;
    AppendKeepsData(c, row, width);
  }

  lemma StepKeepsData(s: TableState, op: Op)
    requires DataState(s) && Enabled(s, op)
    requires op.EmplaceOp? ==> DataChunk(op.chunk, |s.table.columns|)
    ensures DataState(Step(s, op)) && Step(s, op).table.columns == s.table.columns
  {
    StepAddsRows(s, op);
    StepKeepsBound(s, op);
    var width := |s.table.columns|;
    match op
    case AppendOp(row) => AppendStepKeepsData(s, row);
    case CreateOp => EmptyChunkIsData(width);
    case EmplaceOp(c) =>
    case CompressOp(id) =>
      Interleaving.DataChunkEncodable(s.table.chunks[id], width);
      Interleaving.CompressedIsSameChunk(s.table.chunks[id], width);
  }

  lemma {:induction false} RunKeepsData(s: TableState, ops: seq<Op>)
    requires DataState(s) && EnabledRun(s, ops) && DataOps(ops, |s.table.columns|)
    ensures DataState(Run(s, ops)) && Run(s, ops).table.columns == s.table.columns
    decreases |ops|
  {
    if ops != [] {
      StepKeepsData(s, ops[0]);
      RunKeepsData(Step(s, ops[0]), ops[1..]);
    }
  }

  /** Every table filled by appends, emplaced data chunks and compressions can be scanned, and any
      pipeline of scans over it returns exactly the rows ever added that satisfy all its criteria, in
      the order they were added. */
  lemma PipelineOverRun(chunkSize: nat, columns: seq<Column>, ops: seq<Op>, plan: Plan)
    requires 0 < chunkSize <= MAX_CHUNK_ROWS && columns != []
    requires Inv(Init(chunkSize, columns)) && EnabledRun(Init(chunkSize, columns), ops) && DataOps(ops, |columns|)
    ensures Scannable(Run(Init(chunkSize, columns), ops).table)
    ensures ChunksOk(Output(Run(Init(chunkSize, columns), ops).table, plan).chunks)
    ensures Rows(Output(Run(Init(chunkSize, columns), ops).table, plan)) == FilterRows(AllAdded(ops), Criteria(plan))
  {
    var s := Init(chunkSize, columns);
    InitInv(chunkSize, columns);
    EmptyChunkIsData(|columns|);
    RunKeepsData(s, ops);
    RunKeepsAllRows(s, ops);
    assert Rows(s.table) + AllAdded(ops) == AllAdded(ops);
    PipelineFiltersRows(Run(s, ops).table, plan);
  }

  /** A new table object with these columns. */
  method NewTable(chunkSize: nat, columns: seq<Column>) returns (t: TableObjects.MutableTable)
    requires |columns| <= Dictionaries.MAX_UINT16
    ensures t.Valid() && fresh(t.Repr) && t.state == Init(chunkSize, columns)
  {
    t := new TableObjects.MutableTable(chunkSize);
    for k := 0 to |columns|
      invariant t.Valid() && fresh(t.Repr) && t.columns == columns[..k] && t.state == Init(chunkSize, columns[..k])
    {
      assert columns[..k + 1] == columns[..k] + [columns[k]];
      TotalRowsZero(t.state.table.chunks);
      AddColumnExtendsInit(chunkSize, columns[..k], columns[k]);
      t.AddColumn(columns[k].name, columns[k].typ);
    }
    assert columns[..|columns|] == columns;
  }

  /** The whole program, on objects: a table is built, filled by any operations and scanned by any pipeline.
      The result holds exactly the rows ever added that satisfy all criteria, in order. */
  method FillAndScan(chunkSize: nat, columns: seq<Column>, ops: seq<Op>, plan: Plan) returns (r: Result<Table>)
    requires 0 < chunkSize <= MAX_CHUNK_ROWS && 0 < |columns| <= Dictionaries.MAX_UINT16
    requires Inv(Init(chunkSize, columns)) && EnabledRun(Init(chunkSize, columns), ops) && DataOps(ops, |columns|)
    requires TableScan.PlanInColumns(plan, |columns|)
    ensures r.Ok? && ChunksOk(r.value.chunks) && Rows(r.value) == FilterRows(AllAdded(ops), Criteria(plan))
  {
    PipelineOverRun(chunkSize, columns, ops, plan);
    RunKeepsColumns(chunkSize, columns, ops);
    var table := NewTable(chunkSize, columns);
    table.PerformAll(ops);
    var contents := table.Snapshot();
    r := TableScan.ExecutePlan(contents, plan);
  }

  lemma RunKeepsColumns(chunkSize: nat, columns: seq<Column>, ops: seq<Op>)
    requires 0 < chunkSize <= MAX_CHUNK_ROWS && Inv(Init(chunkSize, columns))
    requires EnabledRun(Init(chunkSize, columns), ops) && DataOps(ops, |columns|)
    ensures Run(Init(chunkSize, columns), ops).table.columns == columns
  {
    EmptyChunkIsData(|columns|);
    RunKeepsData(Init(chunkSize, columns), ops);
  }

  /** A position list of a table, read in the table after any later run, gives the same rows. */
  lemma RunKeepsList(s: TableState, ops: seq<Op>, posList: seq<RowID>)
    requires DataState(s) && EnabledRun(s, ops) && DataOps(ops, |s.table.columns|)
    requires DataPositions(s.table, posList)
    ensures DataPositions(Run(s, ops).table, posList)
    ensures RowsAt(s.table, posList) == RowsAt(Run(s, ops).table, posList)
  {
    var t, u := s.table, Run(s, ops).table;
    RunKeepsData(s, ops);
    forall i | 0 <= i < |posList|
      ensures DataPosition(u, posList[i]) && RowAt(t)(posList[i]) == RowAt(u)(posList[i])
    {
      assert DataPosition(t, posList[i]);
      RunKeepsPosition(s, ops, posList[i]);
    }
  }

  /** The references a pipeline returned keep their meaning: after any later appends, emplaced data
      chunks and compressions, reading its position lists in the base table as it is then gives the
      input rows that satisfied all criteria when the pipeline ran. */
  lemma ResultsOutliveRuns(s: TableState, plan: Plan, ops: seq<Op>)
    requires DataState(s) && s.table.columns != [] && plan.Scan?
    requires EnabledRun(s, ops) && DataOps(ops, |s.table.columns|)
    ensures Scannable(s.table) && ChunksOk(s.table.chunks)
    ensures var vs := Views(Output(s.table, plan));
      Flatten(Map(vs, RowsIn(Run(s, ops).table))) == FilterRows(Rows(s.table), Criteria(plan))
  {
    var t, u, vs := s.table, Run(s, ops).table, Views(Output(s.table, plan));
    PipelineFiltersRows(t, plan);
    RowsByViews(Output(t, plan));
    forall k | 0 <= k < |vs| ensures RowsIn(u)(vs[k]) == RowsOfView()(vs[k]) {
      OutputViewOfBase(t, plan, k);
      RunKeepsView(s, ops, vs[k]);
    }
    assert Map(vs, RowsIn(u)) == Map(vs, RowsOfView());
  }

  lemma OutputViewOfBase(t: Table, plan: Plan, k: nat)
    requires Scannable(t) && DataTable(t) && plan.Scan? && k < |Views(Output(t, plan))|
    ensures var v := Views(Output(t, plan))[k];
      ValidView(v, |t.columns|) && (v.posList != [] ==> v.target == t)
  {
    PipelineRefersToBase(t, plan);
  }

  lemma RunKeepsView(s: TableState, ops: seq<Op>, v: View)
    requires DataState(s) && EnabledRun(s, ops) && DataOps(ops, |s.table.columns|)
    requires ValidView(v, |s.table.columns|) && (v.posList != [] ==> v.target == s.table)
    ensures RowsIn(Run(s, ops).table)(v) == RowsOfView()(v)
  {
    if v.posList != [] {
      RunKeepsList(s, ops, v.posList);
    }
  }

  /** The rows at the positions of a view, read in this table. */
  ghost function RowsIn(t: Table): View -> seq<seq<Value>> {
    (v: View) => RowsAt(t, v.posList)
  }
}
