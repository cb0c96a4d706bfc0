/** The table scan operator: scan every chunk, and collect the non-empty position lists as chunks of
    reference segments in a new table. */
module TableScan {
  import opened Wrappers
  import opened Dictionaries
  import opened Storage
  import opened Scanner
  import opened ScanTheory
  import opened TableRuns
  import opened TableObjects

  /** `_create_chunk`: one reference segment per column of the referenced table. */
  method CreateChunk(view: View) returns (chunk: MutableChunk)
    ensures fresh(chunk) && chunk.Valid() && chunk.Distinct() && chunk.objects == {}
    ensures chunk.data == ReferenceChunk(view)
  {
    chunk := new MutableChunk();
    for k := 0 to |view.target.columns|
      invariant chunk.Valid() && chunk.Distinct() && chunk.objects == {} && |chunk.data.segments| == k
      invariant forall j :: 0 <= j < k ==> chunk.data.segments[j] == Reference(view.target, j, view.posList)
    {
      chunk.AddSegment(Fixed(Reference(view.target, k, view.posList)));
    }
    assert chunk.data.segments == ReferenceChunk(view).segments;
  }

  // ---------------------------------------------------------------------------------------------
  // Scanning one chunk
  // ---------------------------------------------------------------------------------------------

  /** What the scanner demands of a segment: its positions exist in the segment it reads or refers to. */
  ghost predicate SegmentReady(s: Segment) {
    match s
    case Reference(target, column, posList) =>
      && |posList| < SIZE_T
      && column < |target.columns|
      && forall i :: 0 <= i < |posList| ==> Addressable(target, column, posList[i])
    case _ => DataSegment(s)
  }

  ghost predicate HasColumn(t: Table, p: Predicate) {
    forall k :: 0 <= k < |t.chunks| ==> p.column < |t.chunks[k].segments|
  }

  /** A position list of the segment leads to another reference segment. */
  ghost predicate Blocked(s: Segment) {
    s.Reference? && exists i :: 0 <= i < |s.posList| && Unsupported(s.table, s.column, s.posList[i])
  }

  /** What a scan of chunk `k` finds, and the table these positions belong to: the referenced table of
      the scanned segment, whatever the other segments of the chunk refer to. */
  ghost function FoundView(t: Table, p: Predicate, k: nat): View
    requires k < |t.chunks| && p.column < |t.chunks[k].segments|
  {
    match t.chunks[k].segments[p.column]
    case Reference(target, column, posList) => View(target, Select(target, p.(column := column), posList))
    case s => View(t, Select(t, p, Positions(k, Size(s))))
  }

  /** Scanning one chunk selects from the positions its segment shows, and fails exactly when one of
      them leads to another reference segment. */
  method ScanChunk(t: Table, p: Predicate, k: nat) returns (r: Result<seq<RowID>>)
    requires k < |t.chunks| && p.column < |t.chunks[k].segments| && SegmentReady(t.chunks[k].segments[p.column])
    ensures r.Err? <==> Blocked(t.chunks[k].segments[p.column])
    ensures r.Ok? ==> r.value == FoundView(t, p, k).posList
  {
    var segment := t.chunks[k].segments[p.column];
    r := ScanSegment(p.op, k, segment, p.value);
    if segment.Reference? {
      assert Predicate(segment.column, p.op, p.value) == p.(column := segment.column);
    } else {
      ChunkIsSelection(t, p, k, Size(segment));
    }
  }

  // ---------------------------------------------------------------------------------------------
  // The output table
  // ---------------------------------------------------------------------------------------------

  ghost predicate HaveColumns(vs: seq<View>) {
    forall k :: 0 <= k < |vs| ==> vs[k].target.columns != []
  }

  /** The state of the output table after the selected views have been emplaced. */
  ghost function OutputState(columns: seq<Column>, vs: seq<View>): TableState {
    if vs == [] then TableState(Table(MAX_CHUNK_ROWS, columns, [EmptyChunk(0)]), Attached(0))
    else TableState(Table(MAX_CHUNK_ROWS, columns, ReferenceChunks(vs)), Attached(|vs| - 1))
  }

  lemma OutputRows(columns: seq<Column>, vs: seq<View>)
    requires NoneEmpty(vs) && HaveColumns(vs)
    ensures TotalRows(OutputState(columns, vs).table.chunks) == 0 <==> vs == []
  {
    TotalRowsZero(OutputState(columns, vs).table.chunks);
    if vs != [] {
      assert RowCount(ReferenceChunks(vs)[0]) == |vs[0].posList|;
    }
  }

  lemma OutputStep(columns: seq<Column>, vs: seq<View>, v: View)
    requires NoneEmpty(vs) && HaveColumns(vs)
    ensures TableRuns.EmplaceChunk(OutputState(columns, vs), ReferenceChunk(v)) == OutputState(columns, vs + [v])
  {
    OutputRows(columns, vs);
    var before, after := OutputState(columns, vs).table.chunks, OutputState(columns, vs + [v]).table.chunks;
    if vs == [] {
      assert before[0 := ReferenceChunk(v)] == after;
    } else {
      assert before + [ReferenceChunk(v)] == after;
    }
  }

  /** The non-empty results of the first `k` chunks. */
  ghost function FoundUpTo(t: Table, p: Predicate, k: nat): seq<View>
    requires HasColumn(t, p) && k <= |t.chunks|
  {
    if k == 0 then []
    else
      var v := FoundView(t, p, k - 1);
      var before := FoundUpTo(t, p, k - 1);
      if v.posList == [] then before else before + [v]
  }

  /** The table a scan builds: one chunk of references for every chunk with a result, or a single empty
      chunk that refers to the input. */
  ghost function OutputTable(t: Table, p: Predicate): Table
    requires HasColumn(t, p)
  {
    var vs := FoundUpTo(t, p, |t.chunks|);
    Table(MAX_CHUNK_ROWS, t.columns, ReferenceChunks(if vs == [] then [View(t, [])] else vs))
  }

  /** What the operator demands of a chunk: the scanned segment can be scanned, and a result fits a
      chunk of the output. The number of columns is not checked for the first result. */
  ghost predicate ChunkReady(t: Table, p: Predicate, k: nat)
    requires HasColumn(t, p) && k < |t.chunks|
  {
    var v := FoundView(t, p, k);
    && SegmentReady(t.chunks[k].segments[p.column])
    && |v.posList| <= MAX_CHUNK_ROWS
    && (v.posList != [] && FoundUpTo(t, p, k) != [] ==> |v.target.columns| == |t.columns|)
  }

  ghost predicate ScanReady(t: Table, p: Predicate) {
    && p.column < |t.columns| && HasColumn(t, p)
    && forall k :: 0 <= k < |t.chunks| ==> ChunkReady(t, p, k)
  }

  lemma {:induction false} FoundNotEmpty(t: Table, p: Predicate, k: nat)
    requires ScanReady(t, p) && k <= |t.chunks|
    ensures NoneEmpty(FoundUpTo(t, p, k)) && HaveColumns(FoundUpTo(t, p, k))
  {
    if k > 0 {
      FoundNotEmpty(t, p, k - 1);
      assert ChunkReady(t, p, k - 1);
    }
  }

  /** Emplacing a reference chunk moves the output to its next state. */
  method EmplaceView(output: MutableTable, view: View, ghost vs: seq<View>)
    requires output.Valid() && output.state == OutputState(output.columns, vs) && NoneEmpty(vs) && HaveColumns(vs)
    requires |view.posList| <= MAX_CHUNK_ROWS && (vs != [] ==> |view.target.columns| == |output.columns|)
    modifies output
    ensures output.Valid() && output.Grew() && output.columns == old(output.columns)
    ensures output.state == OutputState(output.columns, vs + [view])
  {
    var chunk := CreateChunk(view);
    OutputRows(output.columns, vs);
    output.EmplaceChunk(chunk);
    OutputStep(output.columns, vs, view);
  }

  /** A new table with the columns of the input and no segments. */
  method EmptyOutput(columns: seq<Column>) returns (output: MutableTable)
    requires |columns| <= MAX_UINT16
    ensures output.Valid() && fresh(output.Repr)
    ensures output.columns == columns && output.state == OutputState(columns, [])
  {
    output := new MutableTable(MAX_CHUNK_ROWS);
    assert TotalRows(output.state.table.chunks) == 0 by {
      TotalRowsZero(output.state.table.chunks);
    }
    for k := 0 to |columns|
      invariant output.Valid() && fresh(output.Repr)
      invariant output.columns == columns[..k] && output.state == OutputState(columns[..k], [])
      invariant TotalRows(output.state.table.chunks) == 0
    {
      output.AddColumnDefinition(columns[k].name, columns[k].typ);
      assert columns[..k + 1] == columns[..k] + [columns[k]];
    }
    assert columns[..|columns|] == columns;
  }

  /** The scanned column of chunk `k` refers to a reference segment. */
  ghost predicate BlockedAt(t: Table, p: Predicate, k: nat) {
    k < |t.chunks| && p.column < |t.chunks[k].segments| && Blocked(t.chunks[k].segments[p.column])
  }

  /** None of the first `k` chunks stops the scan. */
  ghost predicate OpenUpTo(t: Table, p: Predicate, k: nat) {
    forall j :: 0 <= j < k ==> !BlockedAt(t, p, j)
  }

  /** One round of the scan: chunk `k` is scanned and its result, if any, emplaced. */
  method ScanInto(output: MutableTable, t: Table, p: Predicate, k: nat, ghost vs: seq<View>)
      returns (r: Result<()>, ghost vs': seq<View>)
    requires ScanReady(t, p) && k < |t.chunks|
    requires output.Valid() && output.columns == t.columns
    requires vs == FoundUpTo(t, p, k) && output.state == OutputState(t.columns, vs)
    modifies output
    ensures r.Err? <==> BlockedAt(t, p, k)
    ensures output.Valid() && output.Grew() && output.columns == t.columns
    ensures r.Ok? ==> vs' == FoundUpTo(t, p, k + 1) && output.state == OutputState(t.columns, vs')
  {
    vs' := vs;
    assert ChunkReady(t, p, k);
    var found := ScanChunk(t, p, k);
    match found
    case Err(message) =>
      r := Err(message);
    case Ok(posList) =>
      FoundNotEmpty(t, p, k);
      if posList != [] {
        var segment := t.chunks[k].segments[p.column];
        var target := if segment.Reference? then segment.table else t;
        EmplaceView(output, View(target, posList), vs);
        vs' := vs + [View(target, posList)];
      }
      r := Ok(());
  }

  /** Without any selected row, one empty chunk referring to the input is emplaced. */
  method FinishOutput(output: MutableTable, t: Table, p: Predicate)
    requires ScanReady(t, p) && output.Valid() && output.columns == t.columns
    requires output.state == OutputState(t.columns, FoundUpTo(t, p, |t.chunks|))
    modifies output
    ensures output.Valid() && output.Grew()
    ensures output.state.table == OutputTable(t, p)
  {
    FoundNotEmpty(t, p, |t.chunks|);
    OutputRows(t.columns, FoundUpTo(t, p, |t.chunks|));
    var rows := output.RowCount();
    if rows == 0 {
      EmplaceView(output, View(t, []), []);
      assert [] + [View(t, [])] == [View(t, [])];
    }
  }

  /** The loop over the chunks of the input. */
  method ScanChunks(output: MutableTable, t: Table, p: Predicate) returns (r: Result<()>)
    requires ScanReady(t, p) && output.Valid() && output.columns == t.columns
    requires output.state == OutputState(t.columns, [])
    modifies output
    ensures r.Err? <==> exists k :: BlockedAt(t, p, k)
    ensures output.Valid() && output.Grew() && output.columns == t.columns
    ensures r.Ok? ==> output.state == OutputState(t.columns, FoundUpTo(t, p, |t.chunks|))
  {
    ghost var vs: seq<View> := [];
    for k := 0 to |t.chunks|
      invariant output.Valid() && output.Grew() && output.columns == t.columns
      invariant vs == FoundUpTo(t, p, k) && output.state == OutputState(t.columns, vs)
      invariant OpenUpTo(t, p, k)
    {
      r, vs := ScanInto(output, t, p, k, vs);
      if r.Err? {
        return;
      }
    }
    r := Ok(());
  }

  /** `TableScanImpl::execute`: it fails exactly when the scanned column of some chunk refers to another
      reference segment; otherwise it returns the output table. */
  method Execute(t: Table, p: Predicate) returns (r: Result<MutableTable>)
    requires ScanReady(t, p) && |t.columns| <= MAX_UINT16
    ensures r.Err? <==> exists k :: BlockedAt(t, p, k)
    ensures r.Ok? ==> r.value.Valid() && fresh(r.value.Repr) && r.value.state.table == OutputTable(t, p)
  {
    var output := EmptyOutput(t.columns);
    var scanned := ScanChunks(output, t, p);
    match scanned
    case Err(message) =>
      r := Err(message);
    case Ok(_) =>
      FinishOutput(output, t, p);
      r := Ok(output);
  }

  // ---------------------------------------------------------------------------------------------
  // Tables whose chunks hold their values or are of the form scans produce
  // ---------------------------------------------------------------------------------------------

  /** The segment a scan reads in a chunk of such a table shows what the chunk shows. */
  lemma SegmentToScan(t: Table, p: Predicate, k: nat)
    requires Scannable(t) && k < |t.chunks| && p.column < |t.columns|
    ensures p.column < |t.chunks[k].segments|
    ensures var s := t.chunks[k].segments[p.column];
      if s.Reference? then s == Reference(ViewOf(t, k).target, p.column, ViewOf(t, k).posList)
      else DataSegment(s) && ViewOf(t, k) == View(t, Positions(k, Size(s)))
  {
    var c := t.chunks[k];
    if DataChunk(c, |t.columns|) {
      assert DataSegment(c.segments[0]) && DataSegment(c.segments[p.column]);
    }
  }

  lemma ViewAddressable(v: View, p: Predicate)
    requires ValidView(v, |v.target.columns|) && p.column < |v.target.columns|
    ensures forall i :: 0 <= i < |v.posList| ==> Addressable(v.target, p.column, v.posList[i])
    ensures forall i :: 0 <= i < |v.posList| ==> !Unsupported(v.target, p.column, v.posList[i])
  {
    forall i | 0 <= i < |v.posList|
      ensures Addressable(v.target, p.column, v.posList[i]) && !Unsupported(v.target, p.column, v.posList[i])
    {
      ReachableByRow(v.target, p, v.posList[i]);
    }
  }

  /** Such a chunk can be scanned, the scan does not fail, and it selects whole rows. */
  lemma ScannableChunk(t: Table, p: Predicate, k: nat)
    requires Scannable(t) && k < |t.chunks| && p.column < |t.columns|
    ensures p.column < |t.chunks[k].segments| && t.chunks[k].segments != []
    ensures SegmentReady(t.chunks[k].segments[p.column]) && !Blocked(t.chunks[k].segments[p.column])
    ensures |FoundView(t, p, k).target.columns| == |t.columns| && |FoundView(t, p, k).posList| <= MAX_CHUNK_ROWS
    ensures FoundView(t, p, k) == View(ViewOf(t, k).target, SelectAll(ViewOf(t, k).target, {p}, ViewOf(t, k).posList))
  {
    SegmentToScan(t, p, k);
    ViewOfValid(t, k);
    var v := ViewOf(t, k);
    ViewAddressable(v, p);
    SelectIsSelectAll(v.target, p, v.posList);
    SelectAllFilters(v.target, {p}, v.posList);
    assert p.(column := p.column) == p;
  }

  lemma {:induction false} FoundIsSelected(t: Table, p: Predicate, k: nat)
    requires Scannable(t) && p.column < |t.columns| && HasColumn(t, p) && k <= |t.chunks|
    ensures FoundUpTo(t, p, k) == SelectViews(Views(t)[..k], {p})
  {
    if k > 0 {
      FoundIsSelected(t, p, k - 1);
      ScannableChunk(t, p, k - 1);
      SelectViewsPrefix(Views(t), k - 1, {p});
    }
  }

  /** On a table of this form the operator always succeeds, and its output is the table the
      specification of scans describes. */
  lemma ScanSucceeds(t: Table, p: Predicate)
    requires Scannable(t) && p.column < |t.columns|
    ensures ScanReady(t, p)
    ensures forall k :: !BlockedAt(t, p, k)
    ensures OutputTable(t, p) == ScanTable(t, p)
  {
    forall k | 0 <= k < |t.chunks| ensures p.column < |t.chunks[k].segments| {
      ScannableChunk(t, p, k);
    }
    forall k | 0 <= k < |t.chunks| ensures ChunkReady(t, p, k) && !BlockedAt(t, p, k) {
      ScannableChunk(t, p, k);
    }
    FoundIsSelected(t, p, |t.chunks|);
    assert Views(t)[..|t.chunks|] == Views(t);
  }

  ghost predicate PlanInColumns(plan: Plan, width: nat) {
    plan.Scan? ==> plan.criterion.column < width && PlanInColumns(plan.source, width)
  }

  /** Operators executed one after the other, each on the output of the one before, return the output of
      the pipeline. */
  method ExecutePlan(t: Table, plan: Plan) returns (r: Result<Table>)
    requires Scannable(t) && PlanInColumns(plan, |t.columns|) && |t.columns| <= MAX_UINT16
    ensures r == Ok(Output(t, plan))
  {
    match plan
    case Input =>
      r := Ok(t);
    case Scan(source, p) =>
      r := ExecutePlan(t, source);
      match r
      case Err(_) =>
      case Ok(input) =>
        r := ExecuteScan(input, p);
  }

  /** One operator on a table of the form scans read: it never fails. */
  method ExecuteScan(t: Table, p: Predicate) returns (r: Result<Table>)
    requires Scannable(t) && p.column < |t.columns| <= MAX_UINT16
    ensures r == Ok(ScanTable(t, p))
  {
    ScanSucceeds(t, p);
    var output := Execute(t, p);
    match output
    case Err(message) =>
      r := Err(message);
    case Ok(table) =>
      var result := table.Snapshot();
      r := Ok(result);
  }
}
