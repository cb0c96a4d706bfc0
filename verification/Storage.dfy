/** Segments, chunks and tables as seen by a reader, and the selection of positions by a predicate. */
module Storage {
  import opened Sequences
  import opened Values
  import opened Dictionaries
  import opened Comparison

  /** The default maximum chunk size, one below the largest `ChunkOffset`. */
  const MAX_CHUNK_ROWS: nat := MAX_UINT32 - 1

  datatype RowID = RowID(chunk: nat, offset: nat)

  datatype Segment =
    | Values(values: seq<Value>)
    | Dictionary(encoded: DictionarySegment)
    | Reference(table: Table, column: nat, posList: seq<RowID>)

  datatype Chunk = Chunk(segments: seq<Segment>)

  datatype Column = Column(name: string, typ: string)

  datatype Table = Table(chunkSize: nat, columns: seq<Column>, chunks: seq<Chunk>)

  // ---------------------------------------------------------------------------------------------
  // Reading
  // ---------------------------------------------------------------------------------------------

  function Size(s: Segment): nat {
    match s
    case Values(values) => |values|
    case Dictionary(encoded) => encoded.Size()
    case Reference(_, _, posList) => |posList|
  }

  /** `operator[]` may be called with this offset: every position on the way down exists. The debug check
      of dictionary segments, which compares the row offset with the dictionary size, is left out. */
  predicate Readable(s: Segment, offset: nat) {
    match s
    case Values(values) => offset < |values|
    case Dictionary(e) => offset < e.Size() && e.attributes.ids[offset] < |e.dictionary|
    case Reference(t, column, posList) =>
      && offset < |posList|
      && var r := posList[offset];
      && r.chunk < |t.chunks|
      && column < |t.chunks[r.chunk].segments|
      && Readable(t.chunks[r.chunk].segments[column], r.offset)
  }

  /** `operator[]` of the three segment classes. */
  function Cell(s: Segment, offset: nat): Value
    requires Readable(s, offset)
  {
    match s
    case Values(values) => values[offset]
    case Dictionary(e) => e.Get(offset)
    case Reference(t, column, posList) =>
      var r := posList[offset];
      Cell(t.chunks[r.chunk].segments[column], r.offset)
  }

  /** `Chunk::size`: the size of the first segment. */
  function RowCount(c: Chunk): nat {
    if c.segments == [] then 0 else Size(c.segments[0])
  }

  ghost predicate SegmentOk(s: Segment, n: nat) {
    Size(s) == n && forall i :: 0 <= i < n ==> Readable(s, i)
  }

  /** All segments have the same length and can be read throughout. */
  ghost predicate ChunkOk(c: Chunk) {
    forall k :: 0 <= k < |c.segments| ==> SegmentOk(c.segments[k], RowCount(c))
  }

  ghost function Row(c: Chunk, i: nat): (row: seq<Value>)
    requires ChunkOk(c) && i < RowCount(c)
    ensures |row| == |c.segments|
    ensures forall k :: 0 <= k < |c.segments| ==>
      SegmentOk(c.segments[k], RowCount(c)) && row[k] == Cell(c.segments[k], i)
  {
    seq(|c.segments|, k requires 0 <= k < |c.segments| =>
      assert SegmentOk(c.segments[k], RowCount(c)); Cell(c.segments[k], i))
  }

  ghost function ChunkRows(c: Chunk): (rows: seq<seq<Value>>)
    requires ChunkOk(c)
    ensures |rows| == RowCount(c)
    ensures forall i :: 0 <= i < |rows| ==> rows[i] == Row(c, i)
  {
    seq(RowCount(c), i requires 0 <= i < RowCount(c) => Row(c, i))
  }

  ghost predicate ChunksOk(chunks: seq<Chunk>) {
    forall k :: 0 <= k < |chunks| ==> ChunkOk(chunks[k])
  }

  ghost function RowLists(chunks: seq<Chunk>): (lists: seq<seq<seq<Value>>>)
    requires ChunksOk(chunks)
    ensures |lists| == |chunks|
    ensures forall k :: 0 <= k < |chunks| ==> lists[k] == ChunkRows(chunks[k])
  {
    seq(|chunks|, k requires 0 <= k < |chunks| => ChunkRows(chunks[k]))
  }

  /** The logical content of a list of chunks: their rows one after the other. */
  ghost function RowsOf(chunks: seq<Chunk>): seq<seq<Value>>
    requires ChunksOk(chunks)
  {
    Flatten(RowLists(chunks))
  }

  ghost function Rows(t: Table): seq<seq<Value>>
    requires ChunksOk(t.chunks)
  {
    RowsOf(t.chunks)
  }

  // ---------------------------------------------------------------------------------------------
  // Data tables and positions into them
  // ---------------------------------------------------------------------------------------------

  /** A segment that holds its values itself and whose offsets fit `ChunkOffset`. */
  ghost predicate DataSegment(s: Segment) {
    && !s.Reference?
    && (s.Dictionary? ==> s.encoded.Valid())
    && Size(s) <= MAX_UINT32
  }

  ghost predicate DataChunk(c: Chunk, width: nat) {
    && |c.segments| == width
    && RowCount(c) <= MAX_CHUNK_ROWS
    && forall k :: 0 <= k < width ==> DataSegment(c.segments[k]) && Size(c.segments[k]) == RowCount(c)
  }

  /** A table of value and dictionary chunks. */
  ghost predicate DataTable(t: Table) {
    forall k :: 0 <= k < |t.chunks| ==> DataChunk(t.chunks[k], |t.columns|)
  }

  predicate ValidPosition(t: Table, r: RowID) {
    r.chunk < |t.chunks| && r.offset < RowCount(t.chunks[r.chunk])
  }

  predicate ValidPositions(t: Table, posList: seq<RowID>) {
    forall i :: 0 <= i < |posList| ==> ValidPosition(t, posList[i])
  }

  /** All positions of one chunk, in order. */
  function Positions(chunk: nat, count: nat): (r: seq<RowID>)
    ensures |r| == count
  {
    seq(count, i requires 0 <= i < count => RowID(chunk, i))
  }

  lemma DataSegmentReadable(s: Segment, i: nat)
    requires DataSegment(s) && i < Size(s)
    ensures Readable(s, i)
  {}

  lemma DataChunkOk(c: Chunk, width: nat)
    requires DataChunk(c, width)
    ensures ChunkOk(c)
  {
    forall k | 0 <= k < |c.segments| ensures SegmentOk(c.segments[k], RowCount(c)) {
      forall i | 0 <= i < Size(c.segments[k]) ensures Readable(c.segments[k], i) {
        DataSegmentReadable(c.segments[k], i);
      }
    }
  }

  /** The cell a position designates in a column. */
  ghost function CellAt(t: Table, column: nat, r: RowID): Value
    requires Reachable(t, column, r)
  {
    DataSegmentReadable(t.chunks[r.chunk].segments[column], r.offset);
    Cell(t.chunks[r.chunk].segments[column], r.offset)
  }

  ghost predicate Reachable(t: Table, column: nat, r: RowID) {
    && r.chunk < |t.chunks|
    && column < |t.chunks[r.chunk].segments|
    && DataSegment(t.chunks[r.chunk].segments[column])
    && r.offset < Size(t.chunks[r.chunk].segments[column])
  }

  ghost predicate AllReachable(t: Table, column: nat, posList: seq<RowID>) {
    forall i :: 0 <= i < |posList| ==> Reachable(t, column, posList[i])
  }

  lemma ValidMeansReachable(t: Table, column: nat, posList: seq<RowID>)
    requires DataTable(t) && column < |t.columns| && ValidPositions(t, posList)
    ensures AllReachable(t, column, posList)
  {
    forall i | 0 <= i < |posList| ensures Reachable(t, column, posList[i]) {
      assert ValidPosition(t, posList[i]);
      assert DataChunk(t.chunks[posList[i].chunk], |t.columns|);
    }
  }

  // ---------------------------------------------------------------------------------------------
  // Selection
  // ---------------------------------------------------------------------------------------------

  /** One filter criterion of a scan. */
  datatype Predicate = Predicate(column: nat, op: ScanType, value: Value)

  ghost predicate Holds(t: Table, p: Predicate, r: RowID)
    requires Reachable(t, p.column, r)
  {
    Compare(p.op, CellAt(t, p.column, r), p.value)
  }

  ghost function Keeps(t: Table, p: Predicate): RowID -> bool {
    r => Reachable(t, p.column, r) && Holds(t, p, r)
  }

  /** The specification of every scan: the positions of the list whose cell satisfies the predicate,
      in list order, duplicates kept. */
  ghost function Select(t: Table, p: Predicate, posList: seq<RowID>): seq<RowID> {
    Filter(posList, Keeps(t, p))
  }

  /** Which positions are selected depends only on the cells they designate. */
  lemma SelectDependsOnCells(t: Table, u: Table, p: Predicate, posList: seq<RowID>)
    requires AllReachable(t, p.column, posList) && AllReachable(u, p.column, posList)
    requires forall i :: 0 <= i < |posList| ==> CellAt(t, p.column, posList[i]) == CellAt(u, p.column, posList[i])
    ensures Select(t, p, posList) == Select(u, p, posList)
  {
    forall r | r in posList ensures Keeps(t, p)(r) == Keeps(u, p)(r) {
      var i :| 0 <= i < |posList| && posList[i] == r;
      assert Reachable(t, p.column, posList[i]) && Reachable(u, p.column, posList[i]);
    }
    FilterSame(posList, Keeps(t, p), Keeps(u, p));
  }
}
