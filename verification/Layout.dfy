/** Where rows end up: chunks are filled one after the other, each up to the chunk size. */
module Layout {
  import opened Sequences
  import opened Values
  import opened Dictionaries
  import opened Storage
  import opened TableRuns

  // ---------------------------------------------------------------------------------------------
  // Single operations
  // ---------------------------------------------------------------------------------------------

  /** An append opens a new chunk exactly when the current one holds as many rows as the chunk size. */
  lemma AppendOpensChunk(s: TableState, row: seq<Value>)
    requires s.WellIndexed() && |row| == |ReadyToAppend(s).CurrentChunk().segments|
    ensures var full := RowCount(s.CurrentChunk()) == s.table.chunkSize;
      |Append(s, row).table.chunks| == |s.table.chunks| + if full then 1 else 0
  {}

  /** A chunk that is opened or emplaced is listed and becomes the current one; compression leaves the
      contents of the current chunk as they were. */
  lemma StepMovesCurrent(s: TableState, op: Op)
    requires Inv(s) && Enabled(s, op) && !op.AppendOp?
    ensures Step(s, op).WellIndexed()
    ensures op.CreateOp? ==>
      && Step(s, op).current == Attached(|s.table.chunks|)
      && Step(s, op).CurrentChunk() == EmptyChunk(|s.table.columns|)
    ensures op.EmplaceOp? ==> Step(s, op).current.Attached? && Step(s, op).CurrentChunk() == op.chunk
    ensures op.CompressOp? ==> s.WellIndexed() && Step(s, op).CurrentChunk() == s.CurrentChunk()
  {}

  // ---------------------------------------------------------------------------------------------
  // Runs of appends
  // ---------------------------------------------------------------------------------------------

  /** The rows in so many full chunks. */
  function FullRows(chunkSize: nat, chunks: nat): nat {
    if chunks == 0 then 0 else FullRows(chunkSize, chunks - 1) + chunkSize
  }

  lemma {:induction false} FullRowsProduct(chunkSize: nat, chunks: nat)
    ensures FullRows(chunkSize, chunks) == chunkSize * chunks
  {
    if chunks > 0 {
      FullRowsProduct(chunkSize, chunks - 1);
      OneMore(chunkSize, chunks - 1);
    }
  }

  /** All chunks but the last one are full, and appends go to the last one. */
  ghost predicate Filled(s: TableState, count: nat) {
    var n, chunks, last := s.table.chunkSize, s.table.chunks, |s.table.chunks| - 1;
    && n > 0 && s.table.columns != [] && chunks != []
    && (forall k :: 0 <= k < last ==> RowCount(chunks[k]) == n)
    && RowCount(chunks[last]) <= n && (RowCount(chunks[last]) > 0 || last == 0)
    && count == FullRows(n, last) + RowCount(chunks[last])
    && match s.current
       case Attached(i) => i == last && AllValues(chunks[last]) && |chunks[last].segments| == |s.table.columns|
       case Detached(_) => RowCount(chunks[last]) == n
  }

  lemma OneMore(n: nat, k: nat)
    ensures n * (k + 1) == n * k + n
  {}

  /** Every row with as many cells as there are columns can be appended. */
  lemma AppendEnabled(s: TableState, count: nat, row: seq<Value>)
    requires Inv(s) && Filled(s, count) && s.table.chunkSize <= MAX_UINT32
    ensures Enabled(s, AppendOp(row)) <==> |row| == |s.table.columns|
  {}

  lemma AppendFills(s: TableState, count: nat, row: seq<Value>)
    requires Inv(s) && Filled(s, count) && Enabled(s, AppendOp(row))
    ensures Filled(Append(s, row), count + 1) && row != []
    ensures Append(s, row).table.columns == s.table.columns && Append(s, row).table.chunkSize == s.table.chunkSize
  {
    InvChunksOk(s);
    CreateStep(s);
    var ready := ReadyToAppend(s);
    InvChunksOk(ready);
    AppendToChunkRows(ready.CurrentChunk(), row);
  }

  lemma CompressKeepsFilled(s: TableState, count: nat, id: nat)
    requires Inv(s) && Filled(s, count) && Enabled(s, CompressOp(id))
    ensures Filled(Step(s, CompressOp(id)), count)
    ensures Step(s, CompressOp(id)).table.columns == s.table.columns
    ensures Step(s, CompressOp(id)).table.chunkSize == s.table.chunkSize
  {
    InvChunksOk(s);
    CompressStep(s, id);
    CompressedChunkRows(s.table.chunks[id]);
  }

  ghost predicate AppendsOnly(ops: seq<Op>) {
    forall i :: 0 <= i < |ops| ==> ops[i].AppendOp? || ops[i].CompressOp?
  }

  lemma StepFills(s: TableState, count: nat, op: Op)
    requires Inv(s) && Enabled(s, op) && Filled(s, count) && (op.AppendOp? || op.CompressOp?)
    ensures Inv(Step(s, op)) && Filled(Step(s, op), count + |Added(op)|)
    ensures Step(s, op).table.columns == s.table.columns && Step(s, op).table.chunkSize == s.table.chunkSize
  {
    StepAddsRows(s, op);
    if op.AppendOp? {
      AppendFills(s, count, op.row);
    } else {
      CompressKeepsFilled(s, count, op.id);
    }
  }

  lemma {:induction false} RunFills(s: TableState, count: nat, ops: seq<Op>)
    requires Inv(s) && EnabledRun(s, ops) && Filled(s, count) && AppendsOnly(ops)
    ensures Filled(Run(s, ops), count + |AllAdded(ops)|)
    ensures Run(s, ops).table.columns == s.table.columns && Run(s, ops).table.chunkSize == s.table.chunkSize
    decreases |ops|
  {
    if ops != [] {
      var op, rest := ops[0], ops[1..];
      StepFills(s, count, op);
      RunFills(Step(s, op), count + |Added(op)|, rest);
      assert |AllAdded(ops)| == |Added(op)| + |AllAdded(rest)|;
    }
  }

  lemma InitFilled(chunkSize: nat, columns: seq<Column>)
    requires chunkSize > 0 && columns != []
    ensures Filled(Init(chunkSize, columns), 0)
  {}

  // ---------------------------------------------------------------------------------------------
  // Positions by division
  // ---------------------------------------------------------------------------------------------

  lemma {:induction false} FullParts<T>(xss: seq<seq<T>>, n: nat)
    requires forall k :: 0 <= k < |xss| ==> |xss[k]| == n
    ensures |Flatten(xss)| == n * |xss|
  {
    if xss != [] {
      FullParts(xss[..|xss| - 1], n);
      OneMore(n, |xss| - 1);
    }
  }

  lemma Quotient(n: nat, q: nat, r: nat)
    requires r < n
    ensures (n * q + r) / n == q && (n * q + r) % n == r
  {
    var k := n * q + r;
    SameQuotient(n, q, r, k / n, k % n);
  }

  lemma SameQuotient(n: nat, q: nat, r: nat, p: nat, t: nat)
    requires r < n && t < n && n * q + r == n * p + t
    ensures q == p && r == t
  {
    if p < q {
      Mono(n, p + 1, q);
      OneMore(n, p);
      assert false;
    } else if q < p {
      Mono(n, q + 1, p);
      OneMore(n, q);
      assert false;
    }
  }

  /** Among n elements in every part but the last, the k-th one is in part k / n at k % n. */
  lemma PlaceOf(n: nat, last: nat, size: nat, k: nat)
    requires 0 < n && size <= n && k < n * last + size
    ensures k == n * (k / n) + k % n && k / n <= last && (k / n == last ==> k % n < size)
  {
    if k / n > last {
      Mono(n, last + 1, k / n);
      OneMore(n, last);
      assert false;
    }
  }

  lemma Mono(n: nat, a: nat, b: nat)
    requires a <= b
    ensures n * a <= n * b
  {}

  lemma ElementOfParts<T>(xss: seq<seq<T>>, n: nat, q: nat, r: nat)
    requires q < |xss| && r < |xss[q]| && forall i :: 0 <= i < |xss| - 1 ==> |xss[i]| == n
    ensures n * q + r < |Flatten(xss)| && Flatten(xss)[n * q + r] == xss[q][r]
  {
    FullParts(xss[..q], n);
    FlattenSplit(xss, q);
  }

  /** One chunk for an empty table, otherwise as many as the rows need. */
  function ChunksNeeded(count: nat, chunkSize: nat): nat
    requires chunkSize > 0
  {
    if count == 0 then 1 else (count - 1) / chunkSize + 1
  }

  /** In every run of appends, with compressions in between, from a new table the k-th row added is the row
      at chunk k / chunkSize, offset k % chunkSize, and there are as many chunks as the rows need. */
  lemma AppendedRowsByDivision(chunkSize: nat, columns: seq<Column>, ops: seq<Op>)
    requires chunkSize > 0 && columns != [] && AppendsOnly(ops)
    requires Inv(Init(chunkSize, columns)) && EnabledRun(Init(chunkSize, columns), ops)
    ensures var t, rows := Run(Init(chunkSize, columns), ops).table, AllAdded(ops);
      |t.chunks| == ChunksNeeded(|rows|, chunkSize) && RowsByDivision(t, chunkSize, rows)
  {
    var s, rows := Init(chunkSize, columns), AllAdded(ops);
    InitFilled(chunkSize, columns);
    InitInv(chunkSize, columns);
    RunFills(s, 0, ops);
    RunKeepsAllRows(s, ops);
    assert Rows(s.table) + rows == rows;
    FilledCount(Run(s, ops), |rows|);
    FilledPlaces(Run(s, ops), |rows|);
  }

  /** The k-th row is at chunk k / chunkSize, offset k % chunkSize. */
  ghost predicate RowsByDivision(t: Table, chunkSize: nat, rows: seq<seq<Value>>)
    requires chunkSize > 0
  {
    forall k :: 0 <= k < |rows| ==> RowIsAt(t, k / chunkSize, k % chunkSize, rows[k])
  }

  lemma FilledPlaces(s: TableState, count: nat)
    requires Filled(s, count) && ChunksOk(s.table.chunks) && |Rows(s.table)| == count
    ensures RowsByDivision(s.table, s.table.chunkSize, Rows(s.table))
  {
    forall k | 0 <= k < count
      ensures RowIsAt(s.table, k / s.table.chunkSize, k % s.table.chunkSize, Rows(s.table)[k])
    {
      FilledPlace(s, count, k);
    }
  }

  lemma FilledCount(s: TableState, count: nat)
    requires Filled(s, count)
    ensures |s.table.chunks| == ChunksNeeded(count, s.table.chunkSize)
  {
    var last := |s.table.chunks| - 1;
    FullRowsProduct(s.table.chunkSize, last);
    if count > 0 {
      Quotient(s.table.chunkSize, last, RowCount(s.table.chunks[last]) - 1);
    }
  }

  lemma FilledPlace(s: TableState, count: nat, k: nat)
    requires Filled(s, count) && ChunksOk(s.table.chunks) && |Rows(s.table)| == count && k < count
    ensures RowIsAt(s.table, k / s.table.chunkSize, k % s.table.chunkSize, Rows(s.table)[k])
  {
    var n, last := s.table.chunkSize, |s.table.chunks| - 1;
    FullRowsProduct(n, last);
    PlaceOf(n, last, RowCount(s.table.chunks[last]), k);
    RowOfChunk(s, count, k / n, k % n);
  }

  lemma RowOfChunk(s: TableState, count: nat, q: nat, r: nat)
    requires Filled(s, count) && ChunksOk(s.table.chunks)
    requires q < |s.table.chunks| && r < RowCount(s.table.chunks[q])
    ensures var k := s.table.chunkSize * q + r; k < |Rows(s.table)| && RowIsAt(s.table, q, r, Rows(s.table)[k])
  {
    assert ChunkOk(s.table.chunks[q]);
    ElementOfParts(RowLists(s.table.chunks), s.table.chunkSize, q, r);
  }

  ghost predicate RowIsAt(t: Table, chunk: nat, offset: nat, row: seq<Value>) {
    && chunk < |t.chunks| && ChunkOk(t.chunks[chunk]) && offset < RowCount(t.chunks[chunk])
    && Row(t.chunks[chunk], offset) == row
  }
}
