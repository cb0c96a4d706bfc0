/** The table as a state machine: appending rows, opening and emplacing chunks, and compressing full
    chunks, with the current chunk either an entry of the chunk list or detached from it. */
module TableRuns {
  import opened Sequences
  import opened Values
  import opened Dictionaries
  import opened Storage

  /** Where the chunk that `append` writes to lives. Compression replaces the list entry only, so the
      current chunk can stay behind, reachable by no reader. */
  datatype Current = Attached(index: nat) | Detached(chunk: Chunk)

  datatype TableState = TableState(table: Table, current: Current) {
    predicate WellIndexed() {
      current.Attached? ==> current.index < |table.chunks|
    }

    function CurrentChunk(): Chunk
      requires WellIndexed()
    {
      match current
      case Attached(i) => table.chunks[i]
      case Detached(c) => c
    }

    /** `_is_full` tests equality. */
    predicate IsFull(c: Chunk) {
      RowCount(c) == table.chunkSize
    }
  }

  // ---------------------------------------------------------------------------------------------
  // Operations
  // ---------------------------------------------------------------------------------------------

  predicate AllValues(c: Chunk) {
    forall k :: 0 <= k < |c.segments| ==> c.segments[k].Values?
  }

  function EmptyChunk(width: nat): (c: Chunk)
    ensures |c.segments| == width && AllValues(c) && RowCount(c) == 0
  {
    Chunk(seq(width, _ => Storage.Values([])))
  }

  /** A new table whose columns were all added with `add_column`. */
  function Init(chunkSize: nat, columns: seq<Column>): TableState {
    TableState(Table(chunkSize, columns, [EmptyChunk(|columns|)]), Attached(0))
  }

  /** The state after the current chunk object has changed, where it is listed or detached. */
  function WithCurrent(s: TableState, chunk: Chunk): TableState
    requires s.WellIndexed()
  {
    match s.current
    case Attached(i) => s.(table := s.table.(chunks := s.table.chunks[i := chunk]))
    case Detached(_) => s.(current := Detached(chunk))
  }

  /** `add_column`: the definition goes to the table, an empty segment to the current chunk only. */
  function AddColumn(s: TableState, column: Column): TableState
    requires s.WellIndexed()
  {
    WithCurrent(
      s.(table := s.table.(columns := s.table.columns + [column])),
      Chunk(s.CurrentChunk().segments + [Storage.Values([])]))
  }

  /** Adding columns one by one to a new table builds the table with all of them. */
  lemma AddColumnExtendsInit(chunkSize: nat, columns: seq<Column>, column: Column)
    ensures AddColumn(Init(chunkSize, columns), column) == Init(chunkSize, columns + [column])
  {
    var s := AddColumn(Init(chunkSize, columns), column);
    assert s.table.chunks[0].segments == EmptyChunk(|columns| + 1).segments;
    assert s.table.chunks == Init(chunkSize, columns + [column]).table.chunks;
  }

  /** How many leading segments accept values. */
  function Growing(segments: seq<Segment>): (n: nat)
    ensures n <= |segments|
    ensures forall k :: 0 <= k < n ==> segments[k].Values?
    ensures n < |segments| ==> !segments[n].Values?
  {
    if segments != [] && segments[0].Values? then 1 + Growing(segments[1..]) else 0
  }

  /** `Chunk::append`: the segments grow from the first one on; the first immutable one throws and leaves
      the rest as they were. */
  function AppendToChunk(c: Chunk, row: seq<Value>): (r: Chunk)
    requires |row| == |c.segments|
    ensures |r.segments| == |c.segments|
    ensures AllValues(c) ==> AllValues(r)
    ensures AllValues(c) ==> forall k :: 0 <= k < |row| ==>
      c.segments[k].Values? && r.segments[k] == Storage.Values(c.segments[k].values + [row[k]])
  {
    assert AllValues(c) ==> Growing(c.segments) == |c.segments|;
    Chunk(seq(|row|, k requires 0 <= k < |row| =>
      if k < Growing(c.segments) then Storage.Values(c.segments[k].values + [row[k]]) else c.segments[k]))
  }

  function CreateNewChunk(s: TableState): TableState {
    TableState(
      s.table.(chunks := s.table.chunks + [EmptyChunk(|s.table.columns|)]),
      Attached(|s.table.chunks|))
  }

  /** The state in which `append` writes: a full current chunk is replaced first. */
  function ReadyToAppend(s: TableState): (r: TableState)
    requires s.WellIndexed()
    ensures r.WellIndexed()
  {
    if s.IsFull(s.CurrentChunk()) then CreateNewChunk(s) else s
  }

  predicate Accepts(c: Chunk, row: seq<Value>) {
    AllValues(c) && |row| == |c.segments|
  }

  function Append(s: TableState, row: seq<Value>): TableState
    requires s.WellIndexed() && |row| == |ReadyToAppend(s).CurrentChunk().segments|
  {
    var ready := ReadyToAppend(s);
    WithCurrent(ready, AppendToChunk(ready.CurrentChunk(), row))
  }

  function TotalRows(chunks: seq<Chunk>): nat {
    if chunks == [] then 0 else TotalRows(chunks[..|chunks| - 1]) + RowCount(chunks[|chunks| - 1])
  }

  function EmplaceChunk(s: TableState, c: Chunk): TableState
    requires s.table.chunks != []
  {
    if TotalRows(s.table.chunks) == 0 then
      TableState(s.table.(chunks := s.table.chunks[0 := c]), Attached(0))
    else
      TableState(s.table.(chunks := s.table.chunks + [c]), Attached(|s.table.chunks|))
  }

  predicate Encodable(c: Chunk) {
    AllValues(c) && forall k :: 0 <= k < |c.segments| ==> |Distinct(c.segments[k].values)| <= MAX_UINT32
  }

  function CompressedChunk(c: Chunk): (r: Chunk)
    requires Encodable(c)
    ensures |r.segments| == |c.segments|
    ensures forall k :: 0 <= k < |c.segments| ==> r.segments[k] == Dictionary(Encode(c.segments[k].values))
  {
    Chunk(seq(|c.segments|, k requires 0 <= k < |c.segments| => Dictionary(Encode(c.segments[k].values))))
  }

  /** The body of `compress_chunk`, without its check that the chunk is full. */
  function CompressChunk(s: TableState, id: nat): TableState
    requires id < |s.table.chunks| && Encodable(s.table.chunks[id])
  {
    TableState(
      s.table.(chunks := s.table.chunks[id := CompressedChunk(s.table.chunks[id])]),
      if s.current == Attached(id) then Detached(s.table.chunks[id]) else s.current)
  }

  // ---------------------------------------------------------------------------------------------
  // Runs
  // ---------------------------------------------------------------------------------------------

  datatype Op =
    | AppendOp(row: seq<Value>)
    | CreateOp
    | EmplaceOp(chunk: Chunk)
    | CompressOp(id: nat)

  ghost predicate ChunkFits(c: Chunk) {
    ChunkOk(c) && RowCount(c) <= MAX_UINT32
  }

  ghost predicate AllFit(chunks: seq<Chunk>) {
    forall k :: 0 <= k < |chunks| ==> ChunkFits(chunks[k])
  }

  /** The invariant of every run: chunks can be read throughout, and the current chunk is an entry of
      the list with only empty chunks after it, or is detached and full. */
  ghost predicate Inv(s: TableState) {
    && s.table.chunks != []
    && AllFit(s.table.chunks)
    && match s.current
       case Attached(i) =>
         && i < |s.table.chunks|
         && forall k :: i < k < |s.table.chunks| ==> RowCount(s.table.chunks[k]) == 0
       case Detached(c) => RowCount(c) == s.table.chunkSize
  }

  /** What the operations demand of their callers: the debug checks, values for every segment, and
      chunk sizes within `ChunkOffset`. */
  ghost predicate Enabled(s: TableState, op: Op)
    requires Inv(s)
  {
    match op
    case AppendOp(row) =>
      Accepts(ReadyToAppend(s).CurrentChunk(), row) && RowCount(ReadyToAppend(s).CurrentChunk()) < MAX_UINT32
    case CreateOp => true
    case EmplaceOp(c) =>
      && ChunkFits(c)
      && RowCount(c) <= s.table.chunkSize
      && (TotalRows(s.table.chunks) != 0 ==> |c.segments| == |s.table.columns|)
    case CompressOp(id) =>
      id < |s.table.chunks| && RowCount(s.table.chunks[id]) == s.table.chunkSize && AllValues(s.table.chunks[id])
  }

  ghost function Step(s: TableState, op: Op): TableState
    requires Inv(s) && Enabled(s, op)
  {
    match op
    case AppendOp(row) => Append(s, row)
    case CreateOp => CreateNewChunk(s)
    case EmplaceOp(c) => EmplaceChunk(s, c)
    case CompressOp(id) =>
      FittingChunkEncodable(s.table.chunks[id]);
      CompressChunk(s, id)
  }

  /** The rows an operation adds. A row without cells leaves no trace: a chunk without segments has
      size 0. */
  ghost function Added(op: Op): seq<seq<Value>> {
    match op
    case AppendOp(row) => if row == [] then [] else [row]
    case EmplaceOp(c) => if ChunkOk(c) then ChunkRows(c) else []
    case _ => []
  }

  lemma FittingChunkEncodable(c: Chunk)
    requires ChunkFits(c) && AllValues(c)
    ensures Encodable(c)
  {
    forall k | 0 <= k < |c.segments| ensures |Distinct(c.segments[k].values)| <= MAX_UINT32 {
      assert SegmentOk(c.segments[k], RowCount(c));
      DistinctIsDictionary(c.segments[k].values);
    }
  }

  // ---------------------------------------------------------------------------------------------
  // Chunks under append and compression
  // ---------------------------------------------------------------------------------------------

  /** Appending to a chunk keeps its rows and adds the new one at the end. */
  lemma AppendToChunkRows(c: Chunk, row: seq<Value>)
    requires ChunkOk(c) && Accepts(c, row)
    ensures ChunkOk(AppendToChunk(c, row))
    ensures RowCount(AppendToChunk(c, row)) == RowCount(c) + if row == [] then 0 else 1
    ensures ChunkRows(AppendToChunk(c, row)) == ChunkRows(c) + if row == [] then [] else [row]
  {
    var d := AppendToChunk(c, row);
    forall k | 0 <= k < |row| ensures SegmentOk(d.segments[k], RowCount(d)) {
      assert SegmentOk(c.segments[k], RowCount(c));
    }
    forall i | 0 <= i < RowCount(d)
      ensures Row(d, i) == if i < RowCount(c) then Row(c, i) else row
    {
      forall k | 0 <= k < |row|
        ensures Row(d, i)[k] == if i < RowCount(c) then Row(c, i)[k] else row[k]
      {
        assert SegmentOk(c.segments[k], RowCount(c));
      }
    }
  }

  /** A refused append leaves a readable chunk readable exactly when the first segment refuses: then
      nothing has changed, otherwise the segments before the refusing one are longer than the rest. */
  lemma RefusedAppend(c: Chunk, row: seq<Value>)
    requires ChunkOk(c) && |row| == |c.segments| && !AllValues(c)
    ensures ChunkOk(AppendToChunk(c, row)) <==> !c.segments[0].Values?
    ensures !c.segments[0].Values? ==> AppendToChunk(c, row) == c
  {
    var d, n := AppendToChunk(c, row), Growing(c.segments);
    if c.segments[0].Values? {
      assert SegmentOk(c.segments[n], RowCount(c)) && SegmentOk(c.segments[0], RowCount(c));
      assert d.segments[n] == c.segments[n];
      assert Size(d.segments[n]) != RowCount(d);
    } else {
      assert d.segments == c.segments;
    }
  }

  /** Compression keeps every row of the chunk. */
  lemma CompressedChunkRows(c: Chunk)
    requires ChunkOk(c) && Encodable(c)
    ensures ChunkOk(CompressedChunk(c))
    ensures RowCount(CompressedChunk(c)) == RowCount(c)
    ensures ChunkRows(CompressedChunk(c)) == ChunkRows(c)
  {
    var d := CompressedChunk(c);
    forall k | 0 <= k < |c.segments| ensures SegmentOk(d.segments[k], Size(c.segments[k])) {
      EncodeRoundTrip(c.segments[k].values);
    }
    forall k | 0 <= k < |c.segments| ensures SegmentOk(d.segments[k], RowCount(d)) {
      assert SegmentOk(c.segments[k], RowCount(c));
    }
    forall i | 0 <= i < RowCount(d) ensures Row(d, i) == Row(c, i) {
      forall k | 0 <= k < |c.segments| ensures Row(d, i)[k] == Row(c, i)[k] {
        assert SegmentOk(c.segments[k], RowCount(c));
        EncodeRoundTrip(c.segments[k].values);
      }
    }
  }

  /** The row count is the number of rows. */
  lemma {:induction false} TotalRowsCounts(chunks: seq<Chunk>)
    requires ChunksOk(chunks)
    ensures TotalRows(chunks) == |RowsOf(chunks)|
  {
    if chunks != [] {
      var init, last := chunks[..|chunks| - 1], chunks[|chunks| - 1];
      TotalRowsCounts(init);
      InitLast(chunks);
      RowsOfPush(init, last);
    }
  }

  lemma {:induction false} TotalRowsZero(chunks: seq<Chunk>)
    ensures TotalRows(chunks) == 0 <==> forall k :: 0 <= k < |chunks| ==> RowCount(chunks[k]) == 0
  {
    if chunks != [] {
      TotalRowsZero(chunks[..|chunks| - 1]);
    }
  }

  lemma RowsOfPush(chunks: seq<Chunk>, c: Chunk)
    requires ChunksOk(chunks) && ChunkOk(c)
    ensures ChunksOk(chunks + [c])
    ensures RowsOf(chunks + [c]) == RowsOf(chunks) + ChunkRows(c)
  {
    assert RowLists(chunks + [c]) == RowLists(chunks) + [ChunkRows(c)];
    FlattenSnoc(RowLists(chunks), ChunkRows(c));
  }

  /** Extending a chunk with only empty chunks after it extends the table at the end. */
  lemma RowsOfExtend(chunks: seq<Chunk>, i: nat, c: Chunk, added: seq<seq<Value>>)
    requires ChunksOk(chunks) && i < |chunks| && ChunkOk(c)
    requires ChunkRows(c) == ChunkRows(chunks[i]) + added
    requires forall k :: i < k < |chunks| ==> RowCount(chunks[k]) == 0
    ensures ChunksOk(chunks[i := c])
    ensures RowsOf(chunks[i := c]) == RowsOf(chunks) + added
  {
    var lists := RowLists(chunks);
    assert RowLists(chunks[i := c]) == lists[i := lists[i] + added];
    FlattenExtend(lists, i, added);
  }

  /** Exchanging a chunk for one with the same rows changes nothing for readers. */
  lemma RowsOfExchange(chunks: seq<Chunk>, i: nat, c: Chunk)
    requires ChunksOk(chunks) && i < |chunks| && ChunkOk(c) && ChunkRows(c) == ChunkRows(chunks[i])
    ensures ChunksOk(chunks[i := c])
    ensures RowsOf(chunks[i := c]) == RowsOf(chunks)
  {
    assert RowLists(chunks[i := c]) == RowLists(chunks);
  }

  // ---------------------------------------------------------------------------------------------
  // One step
  // ---------------------------------------------------------------------------------------------

  lemma InvChunksOk(s: TableState)
    requires Inv(s)
    ensures ChunksOk(s.table.chunks)
  {
    forall k | 0 <= k < |s.table.chunks| ensures ChunkOk(s.table.chunks[k]) {
      assert ChunkFits(s.table.chunks[k]);
    }
  }

  lemma CreateStep(s: TableState)
    requires Inv(s)
    ensures Inv(CreateNewChunk(s)) && ChunksOk(s.table.chunks) && ChunksOk(CreateNewChunk(s).table.chunks)
    ensures Rows(CreateNewChunk(s).table) == Rows(s.table)
  {
    InvChunksOk(s);
    var c := EmptyChunk(|s.table.columns|);
    forall k | 0 <= k < |c.segments| ensures SegmentOk(c.segments[k], 0) {
    }
    RowsOfPush(s.table.chunks, c);
    assert ChunkRows(c) == [];
  }

  /** Writing to an attached current chunk adds the row at the end of the table. */
  lemma WriteStep(s: TableState, i: nat, row: seq<Value>)
    requires Inv(s) && s.current == Attached(i)
    requires Accepts(s.table.chunks[i], row) && RowCount(s.table.chunks[i]) < MAX_UINT32
    ensures ChunksOk(s.table.chunks)
    ensures var chunks := s.table.chunks[i := AppendToChunk(s.table.chunks[i], row)];
      AllFit(chunks) && ChunksOk(chunks) && RowsOf(chunks) == RowsOf(s.table.chunks) + Added(AppendOp(row))
  {
    var chunks := s.table.chunks;
    InvChunksOk(s);
    AppendToChunkRows(chunks[i], row);
    RowsOfExtend(chunks, i, AppendToChunk(chunks[i], row), Added(AppendOp(row)));
  }

  lemma AppendStep(s: TableState, row: seq<Value>)
    requires Inv(s) && Enabled(s, AppendOp(row))
    ensures Inv(Append(s, row)) && ChunksOk(s.table.chunks) && ChunksOk(Append(s, row).table.chunks)
    ensures Rows(Append(s, row).table) == Rows(s.table) + Added(AppendOp(row))
  {
    CreateStep(s);
    var ready := ReadyToAppend(s);
    WriteStep(ready, ready.current.index, row);
  }

  lemma EmplaceStep(s: TableState, c: Chunk)
    requires Inv(s) && Enabled(s, EmplaceOp(c))
    ensures Inv(EmplaceChunk(s, c)) && ChunksOk(s.table.chunks) && ChunksOk(EmplaceChunk(s, c).table.chunks)
    ensures Rows(EmplaceChunk(s, c).table) == Rows(s.table) + ChunkRows(c)
  {
    var chunks := s.table.chunks;
    InvChunksOk(s);
    TotalRowsZero(chunks);
    if TotalRows(chunks) == 0 {
      assert ChunkRows(chunks[0]) == [];
      RowsOfExtend(chunks, 0, c, ChunkRows(c));
    } else {
      RowsOfPush(chunks, c);
    }
  }

  lemma CompressStep(s: TableState, id: nat)
    requires Inv(s) && id < |s.table.chunks| && AllValues(s.table.chunks[id])
    requires RowCount(s.table.chunks[id]) == s.table.chunkSize || s.current != Attached(id)
    ensures Encodable(s.table.chunks[id])
    ensures Inv(CompressChunk(s, id)) && ChunksOk(s.table.chunks) && ChunksOk(CompressChunk(s, id).table.chunks)
    ensures Rows(CompressChunk(s, id).table) == Rows(s.table)
  {
    var chunks := s.table.chunks;
    assert ChunkFits(chunks[id]);
    InvChunksOk(s);
    FittingChunkEncodable(chunks[id]);
    CompressedChunkRows(chunks[id]);
    RowsOfExchange(chunks, id, CompressedChunk(chunks[id]));
  }

  /** Every enabled operation keeps the invariant and adds exactly its rows at the end. */
  lemma StepAddsRows(s: TableState, op: Op)
    requires Inv(s) && Enabled(s, op)
    ensures Inv(Step(s, op)) && ChunksOk(s.table.chunks) && ChunksOk(Step(s, op).table.chunks)
    ensures Rows(Step(s, op).table) == Rows(s.table) + Added(op)
  {
    match op
    case AppendOp(row) => AppendStep(s, row);
    case CreateOp => CreateStep(s);
    case EmplaceOp(c) => EmplaceStep(s, c);
    case CompressOp(id) => CompressStep(s, id);
  }

  /** The invariant holds of a new table. */
  lemma InitInv(chunkSize: nat, columns: seq<Column>)
    ensures Inv(Init(chunkSize, columns)) && ChunksOk(Init(chunkSize, columns).table.chunks)
    ensures Rows(Init(chunkSize, columns).table) == []
  {
    var c := EmptyChunk(|columns|);
    forall k | 0 <= k < |c.segments| ensures SegmentOk(c.segments[k], 0) {
    }
    TotalRowsCounts([c]);
  }

  // ---------------------------------------------------------------------------------------------
  // Whole runs
  // ---------------------------------------------------------------------------------------------

  ghost predicate EnabledRun(s: TableState, ops: seq<Op>)
    requires Inv(s)
    decreases |ops|
  {
    ops == [] || (Enabled(s, ops[0]) && (StepAddsRows(s, ops[0]); EnabledRun(Step(s, ops[0]), ops[1..])))
  }

  ghost function Run(s: TableState, ops: seq<Op>): (r: TableState)
    requires Inv(s) && EnabledRun(s, ops)
    ensures Inv(r)
    decreases |ops|
  {
    if ops == [] then s else (StepAddsRows(s, ops[0]); Run(Step(s, ops[0]), ops[1..]))
  }

  ghost function AllAdded(ops: seq<Op>): seq<seq<Value>> {
    if ops == [] then [] else Added(ops[0]) + AllAdded(ops[1..])
  }

  /** In every run, whatever the chunk size, the concatenated chunk rows are the rows at the start
      followed by the rows ever added, in order: no append is lost. */
  lemma {:induction false} RunKeepsAllRows(s: TableState, ops: seq<Op>)
    requires Inv(s) && EnabledRun(s, ops)
    ensures ChunksOk(s.table.chunks) && ChunksOk(Run(s, ops).table.chunks)
    ensures Rows(Run(s, ops).table) == Rows(s.table) + AllAdded(ops)
    decreases |ops|
  {
    InvChunksOk(s);
    if ops != [] {
      StepAddsRows(s, ops[0]);
      RunKeepsAllRows(Step(s, ops[0]), ops[1..]);
      Associative(Rows(s.table), Added(ops[0]), AllAdded(ops[1..]));
    } else {
      AppendNothing(Rows(s.table));
    }
  }

  // ---------------------------------------------------------------------------------------------
  // Positions stay valid
  // ---------------------------------------------------------------------------------------------

  /** `r` designates the same row in both tables. */
  ghost predicate SameRowAt(t: Table, u: Table, r: RowID) {
    && ValidPosition(t, r) && ValidPosition(u, r)
    && ChunkOk(t.chunks[r.chunk]) && ChunkOk(u.chunks[r.chunk])
    && Row(t.chunks[r.chunk], r.offset) == Row(u.chunks[r.chunk], r.offset)
  }

  lemma SameRows(c: Chunk, d: Chunk, i: nat)
    requires ChunkOk(c) && ChunkOk(d) && i < RowCount(c) <= RowCount(d)
    requires ChunkRows(c) == ChunkRows(d)[..RowCount(c)]
    ensures Row(c, i) == Row(d, i)
  {
    assert ChunkRows(c)[i] == ChunkRows(d)[i];
  }

  lemma AppendKeepsPosition(s: TableState, row: seq<Value>, r: RowID)
    requires Inv(s) && Enabled(s, AppendOp(row)) && ValidPosition(s.table, r)
    ensures SameRowAt(s.table, Append(s, row).table, r)
  {
    InvChunksOk(s);
    CreateStep(s);
    AppendStep(s, row);
    var ready := ReadyToAppend(s);
    InvChunksOk(ready);
    if ready.current == Attached(r.chunk) {
      var c := ready.table.chunks[r.chunk];
      AppendToChunkRows(c, row);
      SameRows(c, AppendToChunk(c, row), r.offset);
    }
  }

  lemma StepKeepsPosition(s: TableState, op: Op, r: RowID)
    requires Inv(s) && Enabled(s, op) && ValidPosition(s.table, r)
    ensures SameRowAt(s.table, Step(s, op).table, r)
  {
    StepAddsRows(s, op);
    InvChunksOk(s);
    var t, u := s.table, Step(s, op).table;
    match op
    case AppendOp(row) => AppendKeepsPosition(s, row, r);
    case CreateOp =>
    case EmplaceOp(c) =>
      TotalRowsZero(t.chunks);
    case CompressOp(id) =>
      if r.chunk == id {
        CompressStep(s, id);
        CompressedChunkRows(t.chunks[id]);
        SameRows(t.chunks[id], CompressedChunk(t.chunks[id]), r.offset);
      }
  }

  /** A RowID that is valid once designates the same row after any later run. */
  lemma {:induction false} RunKeepsPosition(s: TableState, ops: seq<Op>, r: RowID)
    requires Inv(s) && EnabledRun(s, ops) && ValidPosition(s.table, r)
    ensures SameRowAt(s.table, Run(s, ops).table, r)
    decreases |ops|
  {
    InvChunksOk(s);
    if ops != [] {
      StepKeepsPosition(s, ops[0], r);
      StepAddsRows(s, ops[0]);
      RunKeepsPosition(Step(s, ops[0]), ops[1..], r);
    }
  }

  // ---------------------------------------------------------------------------------------------
  // The chunk size bound
  // ---------------------------------------------------------------------------------------------

  ghost predicate Bounded(t: Table) {
    forall k :: 0 <= k < |t.chunks| ==> RowCount(t.chunks[k]) <= t.chunkSize
  }

  lemma AppendKeepsBound(s: TableState, row: seq<Value>)
    requires Inv(s) && Enabled(s, AppendOp(row)) && Bounded(s.table) && s.table.chunkSize > 0
    ensures Bounded(Append(s, row).table) && Append(s, row).table.chunkSize == s.table.chunkSize
  {
    CreateStep(s);
    var ready := ReadyToAppend(s);
    InvChunksOk(ready);
    assert Bounded(ready.table);
    AppendToChunkRows(ready.CurrentChunk(), row);
  }

  lemma StepKeepsBound(s: TableState, op: Op)
    requires Inv(s) && Enabled(s, op) && Bounded(s.table) && s.table.chunkSize > 0
    ensures Bounded(Step(s, op).table) && Step(s, op).table.chunkSize == s.table.chunkSize
  {
    InvChunksOk(s);
    match op
    case AppendOp(row) => AppendKeepsBound(s, row);
    case CreateOp =>
    case EmplaceOp(c) =>
    case CompressOp(id) =>
      CompressStep(s, id);
      CompressedChunkRows(s.table.chunks[id]);
  }

  lemma {:induction false} RunKeepsBound(s: TableState, ops: seq<Op>)
    requires Inv(s) && EnabledRun(s, ops) && Bounded(s.table) && s.table.chunkSize > 0
    ensures Bounded(Run(s, ops).table)
    decreases |ops|
  {
    if ops != [] {
      StepAddsRows(s, ops[0]);
      StepKeepsBound(s, ops[0]);
      RunKeepsBound(Step(s, ops[0]), ops[1..]);
    }
  }

  /** Every reachable table respects its chunk size. */
  ghost predicate AlwaysBounded(chunkSize: nat, columns: seq<Column>) {
    InitInv(chunkSize, columns);
    var s := Init(chunkSize, columns);
    forall ops: seq<Op> :: EnabledRun(s, ops) ==> Bounded(Run(s, ops).table)
  }

  /** Because fullness is an equality test, the chunk size bounds the chunks of a table with columns
      exactly when it is positive. */
  lemma BoundNeedsPositiveChunkSize(chunkSize: nat, columns: seq<Column>)
    requires columns != []
    ensures AlwaysBounded(chunkSize, columns) <==> chunkSize > 0
  {
    InitInv(chunkSize, columns);
    var s := Init(chunkSize, columns);
    if chunkSize > 0 {
      forall ops: seq<Op> | EnabledRun(s, ops) ensures Bounded(Run(s, ops).table) {
        RunKeepsBound(s, ops);
      }
    } else {
      var row := seq(|columns|, _ => Int(0));
      var op := AppendOp(row);
      OverflowingAppend(columns, row);
      assert [op][1..] == [];
      assert EnabledRun(Step(s, op), [op][1..]);
      assert EnabledRun(s, [op]);
      assert Run(s, [op]) == Run(Step(s, op), [op][1..]) == Step(s, op);
    }
  }

  /** With chunk size 0 the first append already exceeds it. */
  lemma OverflowingAppend(columns: seq<Column>, row: seq<Value>)
    requires columns != [] && |row| == |columns|
    ensures Inv(Init(0, columns)) && Enabled(Init(0, columns), AppendOp(row))
    ensures Inv(Step(Init(0, columns), AppendOp(row)))
    ensures !Bounded(Step(Init(0, columns), AppendOp(row)).table)
  {
    var s := Init(0, columns);
    InitInv(0, columns);
    CreateStep(s);
    AppendStep(s, row);
    var ready := ReadyToAppend(s);
    InvChunksOk(ready);
    AppendToChunkRows(ready.CurrentChunk(), row);
    assert RowCount(Step(s, AppendOp(row)).table.chunks[1]) == 1;
  }

  // ---------------------------------------------------------------------------------------------
  // Why compression demands a full chunk
  // ---------------------------------------------------------------------------------------------

  /** Without the fullness check, the row appended next is lost exactly when the compressed chunk was
      the current one and not full: it goes to the chunk that left the list. */
  lemma UnguardedCompressLosesAppend(s: TableState, id: nat, row: seq<Value>)
    requires Inv(s) && id < |s.table.chunks| && AllValues(s.table.chunks[id]) && row != []
    requires Encodable(s.table.chunks[id])
    requires Accepts(ReadyToAppend(CompressChunk(s, id)).CurrentChunk(), row)
    requires RowCount(ReadyToAppend(CompressChunk(s, id)).CurrentChunk()) < MAX_UINT32
    ensures ChunksOk(s.table.chunks) && ChunksOk(Append(CompressChunk(s, id), row).table.chunks)
    ensures Rows(Append(CompressChunk(s, id), row).table) == Rows(s.table) + [row]
       <==> RowCount(s.table.chunks[id]) == s.table.chunkSize || s.current != Attached(id)
  {
    InvChunksOk(s);
    var c := CompressChunk(s, id);
    if RowCount(s.table.chunks[id]) == s.table.chunkSize || s.current != Attached(id) {
      CompressStep(s, id);
      AppendStep(c, row);
    } else {
      CompressedChunkRows(s.table.chunks[id]);
      RowsOfExchange(s.table.chunks, id, CompressedChunk(s.table.chunks[id]));
      assert Append(c, row).table == c.table;
      assert Rows(c.table) == Rows(s.table);
    }
  }

  // ---------------------------------------------------------------------------------------------
  // When emplacing replaces the first chunk
  // ---------------------------------------------------------------------------------------------

  /** An empty first chunk is replaced, as the interface promises, exactly when all other chunks are empty
      too. */
  lemma EmplaceReplacesEmptyFirst(s: TableState, c: Chunk)
    requires Inv(s) && Enabled(s, EmplaceOp(c)) && RowCount(s.table.chunks[0]) == 0
    ensures EmplaceChunk(s, c).table.chunks == s.table.chunks[0 := c]
       <==> forall k :: 1 <= k < |s.table.chunks| ==> RowCount(s.table.chunks[k]) == 0
  {
    TotalRowsZero(s.table.chunks);
  }

  /** Opening a chunk before the first append leaves the first chunk empty in a table with rows; a chunk
      emplaced then is added at the end instead of replacing it. */
  lemma EmptyFirstChunkStays(chunkSize: nat, columns: seq<Column>, row: seq<Value>, c: Chunk)
    requires chunkSize > 0 && columns != [] && |row| == |columns|
    requires ChunkFits(c) && RowCount(c) <= chunkSize && |c.segments| == |columns|
    ensures Inv(Init(chunkSize, columns)) && EnabledRun(Init(chunkSize, columns), [CreateOp, AppendOp(row)])
    ensures var s := Run(Init(chunkSize, columns), [CreateOp, AppendOp(row)]);
      && RowCount(s.table.chunks[0]) == 0 && TotalRows(s.table.chunks) > 0
      && Enabled(s, EmplaceOp(c))
      && EmplaceChunk(s, c).table.chunks == s.table.chunks + [c]
  {
    InitInv(chunkSize, columns);
    var s0 := Init(chunkSize, columns);
    StepAddsRows(s0, CreateOp);
    var s1 := Step(s0, CreateOp);
    assert RowCount(s1.CurrentChunk()) != s1.table.chunkSize;
    assert Enabled(s1, AppendOp(row));
    StepAddsRows(s1, AppendOp(row));
    var s2 := Step(s1, AppendOp(row));
    InvChunksOk(s1);
    AppendToChunkRows(s1.CurrentChunk(), row);
    TotalRowsZero(s2.table.chunks);
    TwoSteps(s0, CreateOp, AppendOp(row));
  }

  lemma TwoSteps(s: TableState, first: Op, second: Op)
    requires Inv(s) && Enabled(s, first) && Inv(Step(s, first)) && Enabled(Step(s, first), second)
    ensures EnabledRun(s, [first, second]) && Run(s, [first, second]) == Step(Step(s, first), second)
  {
    var s1 := Step(s, first);
    StepAddsRows(s1, second);
    assert [first, second][1..] == [second] && [second][1..] == [];
    assert EnabledRun(Step(s1, second), [second][1..]) && EnabledRun(s1, [second]);
    assert Run(s1, [second]) == Run(Step(s1, second), [second][1..]) == Step(s1, second);
  }

  /** A chunk whose second segment is immutable: a table may be given one, and the next append leaves a
      chunk that cannot be read. */
  function HalfCompressed(v: Value): Chunk
    requires |Distinct([v])| <= MAX_UINT32
  {
    Chunk([Storage.Values([v]), Dictionary(Encode([v]))])
  }

  lemma HalfCompressedFits(v: Value)
    ensures |Distinct([v])| <= MAX_UINT32
    ensures ChunkFits(HalfCompressed(v)) && RowCount(HalfCompressed(v)) == 1
  {
    DistinctIsDictionary([v]);
    EncodeRoundTrip([v]);
    var c := HalfCompressed(v);
    forall k | 0 <= k < |c.segments| ensures SegmentOk(c.segments[k], 1) {
    }
  }

  /** The next append to a table that was given a half-compressed chunk leaves it unreadable. */
  lemma RefusedAppendReachable(chunkSize: nat, columns: seq<Column>, v: Value)
    requires chunkSize > 1 && |columns| == 2
    ensures |Distinct([v])| <= MAX_UINT32
    ensures Inv(Init(chunkSize, columns)) && EnabledRun(Init(chunkSize, columns), [EmplaceOp(HalfCompressed(v))])
    ensures var s := Run(Init(chunkSize, columns), [EmplaceOp(HalfCompressed(v))]);
      && s == TableState(Table(chunkSize, columns, [HalfCompressed(v)]), Attached(0))
      && RowCount(HalfCompressed(v)) < chunkSize && !ChunksOk(Append(s, [v, v]).table.chunks)
  {
    InitInv(chunkSize, columns);
    HalfCompressedFits(v);
    var s0, c := Init(chunkSize, columns), HalfCompressed(v);
    TotalRowsZero(s0.table.chunks);
    StepAddsRows(s0, EmplaceOp(c));
    var s := Step(s0, EmplaceOp(c));
    assert s.table.chunks == [c] && s.current == Attached(0);
    assert Run(s0, [EmplaceOp(c)]) == Run(s, []);
    assert c.segments[1].Dictionary?;
    RefusedAppend(c, [v, v]);
    assert Append(s, [v, v]).table.chunks[0] == AppendToChunk(c, [v, v]);
  }
}
