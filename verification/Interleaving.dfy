/** Pipelines of scans over a table whose chunks are being compressed. Each scan reads one segment after
    the other; between any two reads of any scan, full chunks of the base table may be replaced by their
    compressed copies. */
module Interleaving {
  import opened Sequences
  import opened Values
  import opened Dictionaries
  import opened Storage
  import opened TableRuns
  import opened ScanTheory
  import Scanner
  import TableScan

  // ---------------------------------------------------------------------------------------------
  // Reads
  // ---------------------------------------------------------------------------------------------

  /** What a scan reads in one piece: a whole segment of the base table, or one run of a position list. */
  datatype Job = WholeChunk(chunk: nat) | ListRun(posList: seq<RowID>, run: Scanner.Run) {
    function ChunkId(): nat {
      if WholeChunk? then chunk else run.chunk
    }

    function Source(): Scanner.Source {
      if WholeChunk? then Scanner.Continuous else Scanner.PosList(posList)
    }

    function Lo(): nat {
      if WholeChunk? then 0 else run.lo
    }

    function Hi(s: Segment): nat {
      if WholeChunk? then Size(s) else run.hi
    }
  }

  /** The scanner can read the segment that the table holds now. */
  ghost predicate JobReady(t: Table, p: Predicate, job: Job) {
    && job.ChunkId() < |t.chunks|
    && p.column < |t.chunks[job.ChunkId()].segments|
    && var s := t.chunks[job.ChunkId()].segments[p.column];
    && DataSegment(s) && Scanner.InBounds(job.Source(), job.Lo(), job.Hi(s), Size(s))
  }

  /** The scan of the segment that the table holds now, value segment or dictionary. */
  ghost function ReadJob(t: Table, p: Predicate, job: Job): seq<RowID>
    requires JobReady(t, p, job)
  {
    var s := t.chunks[job.ChunkId()].segments[p.column];
    Scanner.Matching(s, p.op, p.value, job.ChunkId(), job.Source(), job.Lo(), job.Hi(s))
  }

  /** What a scan reads for one chunk of its input: a chunk of the base table, or the list of a chunk of
      references. */
  datatype Input = BaseChunk(chunk: nat) | List(posList: seq<RowID>)

  /** A list is read in the runs the reference scan cuts it into. */
  function Jobs(input: Input): (jobs: seq<Job>) {
    match input
    case BaseChunk(k) => [WholeChunk(k)]
    case List(posList) =>
      var runs := Scanner.Runs(posList);
      seq(|runs|, i requires 0 <= i < |runs| => ListRun(posList, runs[i]))
  }

  function JobPositions(t: Table, job: Job): seq<RowID> {
    match job
    case WholeChunk(k) => if k < |t.chunks| then Positions(k, RowCount(t.chunks[k])) else []
    case ListRun(posList, run) => if run.lo <= run.hi <= |posList| then posList[run.lo..run.hi] else []
  }

  function InputPositions(t: Table, input: Input): seq<RowID> {
    match input
    case BaseChunk(k) => JobPositions(t, WholeChunk(k))
    case List(posList) => posList
  }

  ghost predicate ValidJob(t: Table, job: Job) {
    match job
    case WholeChunk(k) => k < |t.chunks|
    case ListRun(posList, run) => Scanner.ProperRun(posList, run) && ValidPositions(t, posList)
  }

  ghost predicate ValidInput(t: Table, input: Input) {
    match input
    case BaseChunk(k) => k < |t.chunks|
    case List(posList) => ValidPositions(t, posList)
  }

  /** A valid read selects from the positions it covers. */
  lemma ReadIsSelection(t: Table, p: Predicate, job: Job)
    requires DataTable(t) && p.column < |t.columns| && ValidJob(t, job)
    ensures JobReady(t, p, job)
    ensures ReadJob(t, p, job) == Select(t, p, JobPositions(t, job))
  {
    match job
    case WholeChunk(k) =>
      assert DataChunk(t.chunks[k], |t.columns|);
      Scanner.ChunkIsSelection(t, p, k, Size(t.chunks[k].segments[p.column]));
    case ListRun(posList, run) =>
      assert posList[run.lo].chunk == run.chunk && ValidPosition(t, posList[run.lo]);
      assert DataChunk(t.chunks[run.chunk], |t.columns|);
      ValidMeansReachable(t, p.column, posList);
      Scanner.RunIsSelection(t, p, run.chunk, posList, run.lo, run.hi);
  }

  /** A whole-chunk read is what the scan operator finds in that chunk of the same table. */
  lemma WholeChunkReadIsScan(t: Table, p: Predicate, k: nat)
    requires DataTable(t) && p.column < |t.columns| && k < |t.chunks|
    ensures JobReady(t, p, WholeChunk(k)) && TableScan.SegmentReady(t.chunks[k].segments[p.column])
    ensures !TableScan.Blocked(t.chunks[k].segments[p.column])
    ensures TableScan.FoundView(t, p, k) == View(t, ReadJob(t, p, WholeChunk(k)))
  {
    ReadIsSelection(t, p, WholeChunk(k));
    assert DataChunk(t.chunks[k], |t.columns|);
  }

  ghost function JobParts(t: Table, jobs: seq<Job>): (parts: seq<seq<RowID>>)
    ensures |parts| == |jobs|
    ensures forall i :: 0 <= i < |jobs| ==> parts[i] == JobPositions(t, jobs[i])
  {
    seq(|jobs|, i requires 0 <= i < |jobs| => JobPositions(t, jobs[i]))
  }

  /** The reads of an input are valid and cover its positions, in order. */
  lemma JobsCover(t: Table, input: Input)
    requires ValidInput(t, input)
    ensures forall i :: 0 <= i < |Jobs(input)| ==> ValidJob(t, Jobs(input)[i])
    ensures Flatten(JobParts(t, Jobs(input))) == InputPositions(t, input)
  {
    match input
    case BaseChunk(k) =>
      FlattenSnoc([], JobPositions(t, WholeChunk(k)));
      assert JobParts(t, Jobs(input)) == [] + [JobPositions(t, WholeChunk(k))];
    case List(posList) =>
      Scanner.RunsCover(posList);
      assert JobParts(t, Jobs(input)) == Scanner.Parts(posList, Scanner.Runs(posList));
  }

  // ---------------------------------------------------------------------------------------------
  // The state machine
  // ---------------------------------------------------------------------------------------------

  datatype Action =
    | Read               // the next segment of the current input
    | FinishInput        // the results of its runs become one position list
    | FinishScan         // the non-empty lists become the input of the next scan
    | Compress(id: nat)  // a chunk of the base table is compressed

  /** The base table as it is now; the scans that are finished and those to come; the inputs of the scan
      that is running, the lists it found in the first of them, and the results of the current one's
      first runs. */
  datatype PipelineState = PipelineState(
    table: Table,
    done: Plan,
    rest: seq<Predicate>,
    inputs: seq<Input>,
    results: seq<seq<RowID>>,
    parts: seq<seq<RowID>>)
  {
    predicate Scanning() {
      rest != [] && |results| < |inputs|
    }

    function CurrentJobs(): seq<Job>
      requires Scanning()
    {
      Jobs(inputs[|results|])
    }
  }

  ghost predicate CanCompress(t: Table, id: nat) {
    id < |t.chunks| && RowCount(t.chunks[id]) == t.chunkSize && Encodable(t.chunks[id])
  }

  /** The swap `compress_chunk` makes visible to readers. */
  ghost function CompressIn(t: Table, id: nat): Table
    requires CanCompress(t, id)
  {
    t.(chunks := t.chunks[id := CompressedChunk(t.chunks[id])])
  }

  ghost predicate Enabled(s: PipelineState, a: Action) {
    match a
    case Read =>
      && s.Scanning() && |s.parts| < |s.CurrentJobs()|
      && JobReady(s.table, s.rest[0], s.CurrentJobs()[|s.parts|])
    case FinishInput => s.Scanning() && |s.parts| == |s.CurrentJobs()|
    case FinishScan => s.rest != [] && |s.results| == |s.inputs|
    case Compress(id) => CanCompress(s.table, id)
  }

  function NonEmpty(lists: seq<seq<RowID>>): seq<seq<RowID>> {
    if lists == [] then []
    else
      var before, last := NonEmpty(lists[..|lists| - 1]), lists[|lists| - 1];
      if last == [] then before else before + [last]
  }

  /** The lists of a scan's output: one empty list if there is no result. */
  function OutputLists(results: seq<seq<RowID>>): seq<seq<RowID>> {
    if NonEmpty(results) == [] then [[]] else NonEmpty(results)
  }

  function ListInputs(lists: seq<seq<RowID>>): (inputs: seq<Input>)
    ensures |inputs| == |lists|
    ensures forall k :: 0 <= k < |lists| ==> inputs[k] == List(lists[k])
  {
    seq(|lists|, k requires 0 <= k < |lists| => List(lists[k]))
  }

  ghost function Step(s: PipelineState, a: Action): PipelineState
    requires Enabled(s, a)
  {
    match a
    case Read => s.(parts := s.parts + [ReadJob(s.table, s.rest[0], s.CurrentJobs()[|s.parts|])])
    case FinishInput => s.(results := s.results + [Flatten(s.parts)], parts := [])
    case FinishScan =>
      s.(done := Scan(s.done, s.rest[0]), rest := s.rest[1..], inputs := ListInputs(OutputLists(s.results)),
         results := [], parts := [])
    case Compress(id) => s.(table := CompressIn(s.table, id))
  }

  function ChunkInputs(n: nat): (inputs: seq<Input>)
    ensures |inputs| == n
    ensures forall k :: 0 <= k < n ==> inputs[k] == BaseChunk(k)
  {
    seq(n, k requires 0 <= k < n => BaseChunk(k))
  }

  /** The pipeline has not read anything yet. */
  function Start(t: Table, criteria: seq<Predicate>): PipelineState {
    PipelineState(t, Plan.Input, criteria, ChunkInputs(|t.chunks|), [], [])
  }

  ghost predicate EnabledAll(s: PipelineState, actions: seq<Action>)
    decreases |actions|
  {
    actions != [] ==> Enabled(s, actions[0]) && EnabledAll(Step(s, actions[0]), actions[1..])
  }

  ghost function After(s: PipelineState, actions: seq<Action>): PipelineState
    requires EnabledAll(s, actions)
    decreases |actions|
  {
    if actions == [] then s else After(Step(s, actions[0]), actions[1..])
  }

  /** The whole pipeline: the finished scans followed by those to come. */
  function Extend(plan: Plan, criteria: seq<Predicate>): Plan
    decreases |criteria|
  {
    if criteria == [] then plan else Extend(Scan(plan, criteria[0]), criteria[1..])
  }

  // ---------------------------------------------------------------------------------------------
  // Compression keeps the cells
  // ---------------------------------------------------------------------------------------------

  lemma DataChunkEncodable(c: Chunk, width: nat)
    requires DataChunk(c, width) && AllValues(c)
    ensures Encodable(c)
  {
    DataChunkOk(c, width);
    FittingChunkEncodable(c);
  }

  /** Both tables show the same cells at the same positions. */
  ghost predicate SameCells(t: Table, u: Table) {
    && DataTable(t) && DataTable(u)
    && t.columns == u.columns && |t.chunks| == |u.chunks|
    && forall k :: 0 <= k < |t.chunks| ==> SameChunk(t.chunks[k], u.chunks[k], |t.columns|)
  }

  ghost predicate SameChunk(c: Chunk, d: Chunk, width: nat) {
    && DataChunk(c, width) && DataChunk(d, width)
    && RowCount(c) == RowCount(d)
    && forall k, i :: 0 <= k < width && 0 <= i < RowCount(c) ==>
         Readable(c.segments[k], i) && Readable(d.segments[k], i) && Cell(c.segments[k], i) == Cell(d.segments[k], i)
  }

  lemma SameChunkReflexive(c: Chunk, width: nat)
    requires DataChunk(c, width)
    ensures SameChunk(c, c, width)
  {
    forall k, i | 0 <= k < width && 0 <= i < RowCount(c) ensures Readable(c.segments[k], i) {
      DataSegmentReadable(c.segments[k], i);
    }
  }

  lemma CompressedIsSameChunk(c: Chunk, width: nat)
    requires DataChunk(c, width) && AllValues(c) && Encodable(c)
    ensures SameChunk(c, CompressedChunk(c), width)
  {
    var d := CompressedChunk(c);
    forall k | 0 <= k < width ensures DataSegment(d.segments[k]) && Size(d.segments[k]) == RowCount(c) {
      EncodeRoundTrip(c.segments[k].values);
    }
    forall k, i | 0 <= k < width && 0 <= i < RowCount(c)
      ensures Readable(c.segments[k], i) && Readable(d.segments[k], i)
      ensures Cell(c.segments[k], i) == Cell(d.segments[k], i)
    {
      EncodeRoundTrip(c.segments[k].values);
    }
  }

  lemma SameCellsReflexive(t: Table)
    requires DataTable(t)
    ensures SameCells(t, t)
  {
    forall k | 0 <= k < |t.chunks| ensures SameChunk(t.chunks[k], t.chunks[k], |t.columns|) {
      SameChunkReflexive(t.chunks[k], |t.columns|);
    }
  }

  lemma SameChunkTransitive(c: Chunk, d: Chunk, e: Chunk, width: nat)
    requires SameChunk(c, d, width) && SameChunk(d, e, width)
    ensures SameChunk(c, e, width)
  {}

  /** Compressing a chunk keeps what every position shows. */
  lemma CompressKeepsCells(t: Table, u: Table, id: nat)
    requires SameCells(t, u) && CanCompress(u, id)
    ensures SameCells(t, CompressIn(u, id))
  {
    var v, width := CompressIn(u, id), |t.columns|;
    CompressedIsSameChunk(u.chunks[id], width);
    forall k | 0 <= k < |t.chunks| ensures SameChunk(t.chunks[k], v.chunks[k], width) {
      if k == id {
        SameChunkTransitive(t.chunks[id], u.chunks[id], v.chunks[id], width);
      } else {
        assert v.chunks[k] == u.chunks[k];
      }
    }
    forall k | 0 <= k < |v.chunks| ensures DataChunk(v.chunks[k], width) {
      assert SameChunk(t.chunks[k], v.chunks[k], width);
    }
  }

  /** At positions of the table, tables that show the same cells show the same rows. */
  lemma SameCellsSameRows(t: Table, u: Table, r: RowID)
    requires SameCells(t, u) && DataPosition(t, r)
    ensures DataPosition(u, r) && RowAt(t)(r) == RowAt(u)(r)
  {
    var c, d, width := t.chunks[r.chunk], u.chunks[r.chunk], |t.columns|;
    assert SameChunk(c, d, width);
    DataChunkOk(c, width);
    DataChunkOk(d, width);
    assert Row(c, r.offset) == Row(d, r.offset);
  }

  lemma SameCellsSameList(t: Table, u: Table, posList: seq<RowID>)
    requires SameCells(t, u) && DataPositions(t, posList)
    ensures DataPositions(u, posList) && RowsAt(t, posList) == RowsAt(u, posList)
  {
    forall i | 0 <= i < |posList|
      ensures DataPosition(u, posList[i]) && RowAt(t)(posList[i]) == RowAt(u)(posList[i])
    {
      SameCellsSameRows(t, u, posList[i]);
    }
  }

  lemma ValidMeansData(t: Table, posList: seq<RowID>)
    requires DataTable(t)
    ensures ValidPositions(t, posList) <==> DataPositions(t, posList)
  {
    forall i | 0 <= i < |posList| ensures ValidPosition(t, posList[i]) <==> DataPosition(t, posList[i]) {
    }
  }

  /** Tables that show the same cells give every read the same result. */
  lemma SameCellsSameRead(t: Table, u: Table, p: Predicate, job: Job)
    requires SameCells(t, u) && ValidJob(t, job) && p.column < |t.columns|
    ensures ValidJob(u, job) && JobReady(u, p, job)
    ensures ReadJob(u, p, job) == Select(t, p, JobPositions(t, job))
  {
    SameJob(t, u, job);
    ReadIsSelection(u, p, job);
    SameCellsSameSelection(t, u, p, JobPositions(t, job));
  }

  lemma SameCellsSameSelection(t: Table, u: Table, p: Predicate, posList: seq<RowID>)
    requires SameCells(t, u) && DataPositions(t, posList) && p.column < |t.columns|
    ensures AllReachable(u, p.column, posList)
    ensures Select(t, p, posList) == Select(u, p, posList)
  {
    forall i | 0 <= i < |posList|
      ensures Reachable(t, p.column, posList[i]) && Reachable(u, p.column, posList[i])
      ensures CellAt(t, p.column, posList[i]) == CellAt(u, p.column, posList[i])
    {
      assert DataPosition(t, posList[i]);
      assert SameChunk(t.chunks[posList[i].chunk], u.chunks[posList[i].chunk], |t.columns|);
    }
    SelectDependsOnCells(t, u, p, posList);
  }

  lemma SameJob(t: Table, u: Table, job: Job)
    requires SameCells(t, u) && ValidJob(t, job)
    ensures ValidJob(u, job) && JobPositions(t, job) == JobPositions(u, job)
    ensures DataPositions(t, JobPositions(t, job)) && DataPositions(u, JobPositions(t, job))
  {
    match job
    case WholeChunk(k) =>
      assert SameChunk(t.chunks[k], u.chunks[k], |t.columns|);
    case ListRun(posList, run) =>
      ValidMeansData(t, posList);
      ValidMeansData(u, posList);
      SameCellsSameList(t, u, posList);
      forall i | 0 <= i < run.hi - run.lo ensures posList[run.lo..run.hi][i] == posList[run.lo + i] {
      }
  }

  // ---------------------------------------------------------------------------------------------
  // What every state keeps
  // ---------------------------------------------------------------------------------------------

  /** The input shows the positions of the view, which lie in the base table. */
  ghost predicate Shows(t: Table, v: View, input: Input) {
    && ValidInput(t, input) && InputPositions(t, input) == v.posList
    && DataPositions(t, v.posList)
    && (v.posList != [] ==> v.target == t)
  }

  /** The inputs of the running scan are the chunks of the output of the finished ones. */
  ghost predicate InputsOf(t: Table, done: Plan, inputs: seq<Input>)
    requires Scannable(t)
  {
    var vs := Views(Output(t, done));
    |inputs| == |vs| && forall k :: 0 <= k < |vs| ==> Shows(t, vs[k], inputs[k])
  }

  /** The lists found so far are those the scan finds in the original table. */
  ghost predicate ResultsOf(t: Table, p: Predicate, inputs: seq<Input>, results: seq<seq<RowID>>) {
    && |results| <= |inputs|
    && forall k :: 0 <= k < |results| ==> results[k] == Select(t, p, InputPositions(t, inputs[k]))
  }

  ghost predicate PartsOf(t: Table, p: Predicate, jobs: seq<Job>, parts: seq<seq<RowID>>) {
    && |parts| <= |jobs|
    && forall j :: 0 <= j < |parts| ==> parts[j] == Select(t, p, JobPositions(t, jobs[j]))
  }

  ghost predicate InColumns(t: Table, criteria: seq<Predicate>) {
    forall i :: 0 <= i < |criteria| ==> criteria[i].column < |t.columns|
  }

  /** The state is one of a pipeline over the original table. */
  ghost predicate Consistent(t: Table, s: PipelineState)
    requires Scannable(t)
  {
    && SameCells(t, s.table) && InColumns(t, s.rest)
    && InputsOf(t, s.done, s.inputs)
    && (s.rest != [] ==> ResultsOf(t, s.rest[0], s.inputs, s.results))
    && (if s.Scanning() then PartsOf(t, s.rest[0], s.CurrentJobs(), s.parts) else s.parts == [])
  }

  lemma StartConsistent(t: Table, criteria: seq<Predicate>)
    requires Scannable(t) && DataTable(t) && InColumns(t, criteria)
    ensures Consistent(t, Start(t, criteria))
  {
    SameCellsReflexive(t);
    forall k | 0 <= k < |t.chunks| ensures Shows(t, Views(t)[k], BaseChunk(k)) {
      assert DataChunk(t.chunks[k], |t.columns|);
      assert DataSegment(t.chunks[k].segments[0]);
      ViewOfValid(t, k);
    }
  }

  lemma CurrentInputValid(t: Table, s: PipelineState)
    requires Scannable(t) && Consistent(t, s) && s.Scanning()
    ensures ValidInput(t, s.inputs[|s.results|])
  {
    assert Shows(t, Views(Output(t, s.done))[|s.results|], s.inputs[|s.results|]);
  }

  lemma OneMorePart(t: Table, u: Table, p: Predicate, jobs: seq<Job>, parts: seq<seq<RowID>>)
    requires SameCells(t, u) && p.column < |t.columns|
    requires PartsOf(t, p, jobs, parts) && |parts| < |jobs| && ValidJob(t, jobs[|parts|])
    ensures JobReady(u, p, jobs[|parts|])
    ensures PartsOf(t, p, jobs, parts + [ReadJob(u, p, jobs[|parts|])])
  {
    SameCellsSameRead(t, u, p, jobs[|parts|]);
  }

  /** The next read of an input, made in any table with the same cells, is the one to be made. */
  lemma NextRead(t: Table, u: Table, p: Predicate, input: Input, parts: seq<seq<RowID>>)
    requires SameCells(t, u) && ValidInput(t, input) && p.column < |t.columns|
    requires PartsOf(t, p, Jobs(input), parts) && |parts| < |Jobs(input)|
    ensures JobReady(u, p, Jobs(input)[|parts|])
    ensures PartsOf(t, p, Jobs(input), parts + [ReadJob(u, p, Jobs(input)[|parts|])])
  {
    JobsCover(t, input);
    OneMorePart(t, u, p, Jobs(input), parts);
  }

  /** All reads of an input together select from its positions. */
  lemma AllRead(t: Table, p: Predicate, input: Input, parts: seq<seq<RowID>>)
    requires ValidInput(t, input) && PartsOf(t, p, Jobs(input), parts) && |parts| == |Jobs(input)|
    ensures Flatten(parts) == Select(t, p, InputPositions(t, input))
  {
    JobsCover(t, input);
    FilterParts(JobParts(t, Jobs(input)), parts, Keeps(t, p));
  }

  lemma ReadKeeps(t: Table, s: PipelineState)
    requires Scannable(t) && Consistent(t, s) && Enabled(s, Read)
    ensures Consistent(t, Step(s, Read))
  {
    CurrentInputValid(t, s);
    NextRead(t, s.table, s.rest[0], s.inputs[|s.results|], s.parts);
  }

  lemma NextResult(t: Table, p: Predicate, inputs: seq<Input>, results: seq<seq<RowID>>, result: seq<RowID>)
    requires ResultsOf(t, p, inputs, results) && |results| < |inputs|
    requires result == Select(t, p, InputPositions(t, inputs[|results|]))
    ensures ResultsOf(t, p, inputs, results + [result])
  {}

  lemma FinishInputKeeps(t: Table, s: PipelineState)
    requires Scannable(t) && Consistent(t, s) && Enabled(s, FinishInput)
    ensures Consistent(t, Step(s, FinishInput))
  {
    CurrentInputValid(t, s);
    AllRead(t, s.rest[0], s.inputs[|s.results|], s.parts);
    NextResult(t, s.rest[0], s.inputs, s.results, Flatten(s.parts));
  }

  /** The lists are those of the views, all of the base table. */
  ghost predicate ListsOf(t: Table, vs: seq<View>, lists: seq<seq<RowID>>) {
    |vs| == |lists| && forall k :: 0 <= k < |vs| ==> vs[k] == View(t, lists[k])
  }

  lemma OneMoreList(t: Table, p: Predicate, vs: seq<View>, results: seq<seq<RowID>>, v: View, input: Input)
    requires ListsOf(t, SelectViews(vs, {p}), NonEmpty(results)) && Shows(t, v, input) && p.column < |t.columns|
    ensures ListsOf(t, SelectViews(vs + [v], {p}), NonEmpty(results + [Select(t, p, v.posList)]))
  {
    var selected := Select(t, p, v.posList);
    SelectedFromView(t, p, v, input);
    SelectViewsSnoc(vs, v, {p});
    NonEmptySnoc(results, selected);
    if selected != [] {
      ListsSnoc(t, SelectViews(vs, {p}), NonEmpty(results), selected);
    }
  }

  /** A view left without positions is dropped; any other refers to the base table. */
  lemma SelectedFromView(t: Table, p: Predicate, v: View, input: Input)
    requires Shows(t, v, input) && p.column < |t.columns|
    ensures SelectAll(v.target, {p}, v.posList) == Select(t, p, v.posList)
    ensures Select(t, p, v.posList) != [] ==> v.target == t
  {
    SelectIsSelectAll(t, p, v.posList);
  }

  lemma ListsSnoc(t: Table, vs: seq<View>, lists: seq<seq<RowID>>, list: seq<RowID>)
    requires ListsOf(t, vs, lists)
    ensures ListsOf(t, vs + [View(t, list)], lists + [list])
  {}

  lemma NonEmptySnoc(lists: seq<seq<RowID>>, last: seq<RowID>)
    ensures NonEmpty(lists + [last]) == if last == [] then NonEmpty(lists) else NonEmpty(lists) + [last]
  {
    assert (lists + [last])[..|lists|] == lists;
  }

  /** Dropping the empty lists gives the lists of the selected views. */
  lemma {:induction false} SelectedLists(
      t: Table, p: Predicate, vs: seq<View>, inputs: seq<Input>, results: seq<seq<RowID>>)
    requires |vs| == |inputs| == |results| && p.column < |t.columns|
    requires forall k :: 0 <= k < |vs| ==> Shows(t, vs[k], inputs[k])
    requires ResultsOf(t, p, inputs, results)
    ensures ListsOf(t, SelectViews(vs, {p}), NonEmpty(results))
  {
    if vs != [] {
      var n := |vs| - 1;
      SelectedLists(t, p, vs[..n], inputs[..n], results[..n]);
      OneMoreList(t, p, vs[..n], results[..n], vs[n], inputs[n]);
      InitLast(vs);
      InitLast(results);
    }
  }

  /** The lists of the output views are valid inputs for the next scan. */
  lemma OutputListsShown(t: Table, u: Table, p: Predicate, results: seq<seq<RowID>>)
    requires Scannable(u) && DataTable(t) && t.columns == u.columns
    requires ListsOf(t, SelectViews(Views(u), {p}), NonEmpty(results))
    ensures |OutputLists(results)| == |OutputViews(u, p)|
    ensures forall k :: 0 <= k < |OutputViews(u, p)| ==> Shows(t, OutputViews(u, p)[k], List(OutputLists(results)[k]))
  {
    var vs := OutputViews(u, p);
    SelectViewsValid(Views(u), {p}, |u.columns|);
    forall k | 0 <= k < |vs| ensures Shows(t, vs[k], List(OutputLists(results)[k])) {
      ValidMeansData(t, vs[k].posList);
      assert ValidView(vs[k], |t.columns|);
    }
  }

  lemma FinishScanKeeps(t: Table, s: PipelineState)
    requires Scannable(t) && DataTable(t) && Consistent(t, s) && Enabled(s, FinishScan)
    ensures Consistent(t, Step(s, FinishScan))
  {
    var u, p := Output(t, s.done), s.rest[0];
    SelectedLists(t, p, Views(u), s.inputs, s.results);
    OutputListsShown(t, u, p, s.results);
    ScanOutputScannable(u, p);
    assert Views(Output(t, Scan(s.done, p))) == OutputViews(u, p);
  }

  lemma StepKeeps(t: Table, s: PipelineState, a: Action)
    requires Scannable(t) && DataTable(t) && Consistent(t, s) && Enabled(s, a)
    ensures Consistent(t, Step(s, a))
    ensures Extend(Step(s, a).done, Step(s, a).rest) == Extend(s.done, s.rest)
  {
    match a
    case Read => ReadKeeps(t, s);
    case FinishInput => FinishInputKeeps(t, s);
    case FinishScan => FinishScanKeeps(t, s);
    case Compress(id) => CompressKeepsCells(t, s.table, id);
  }

  lemma {:induction false} StepsKeep(t: Table, s: PipelineState, actions: seq<Action>)
    requires Scannable(t) && DataTable(t) && Consistent(t, s) && EnabledAll(s, actions)
    ensures Consistent(t, After(s, actions))
    ensures Extend(After(s, actions).done, After(s, actions).rest) == Extend(s.done, s.rest)
    decreases |actions|
  {
    if actions != [] {
      StepKeeps(t, s, actions[0]);
      StepsKeep(t, Step(s, actions[0]), actions[1..]);
    }
  }

  // ---------------------------------------------------------------------------------------------
  // Main results
  // ---------------------------------------------------------------------------------------------

  /** The rows that the inputs of the running scan show in the table as it is now. */
  ghost function RowsShown(t: Table, inputs: seq<Input>): seq<seq<Value>> {
    Flatten(Map(inputs, RowsOfInput(t)))
  }

  ghost function RowsOfInput(t: Table): Input -> seq<seq<Value>> {
    input => RowsAt(t, InputPositions(t, input))
  }

  /** In every state of every interleaving of the reads of a pipeline with compressions, the base table
      shows the cells it showed at the start, the finished scans have returned the lists an
      uninterrupted run returns, and so have the running scan's reads. */
  lemma CompressionIsInvisible(t: Table, criteria: seq<Predicate>, actions: seq<Action>)
    requires Scannable(t) && DataTable(t) && InColumns(t, criteria)
    requires EnabledAll(Start(t, criteria), actions)
    ensures Consistent(t, After(Start(t, criteria), actions))
    ensures var s := After(Start(t, criteria), actions); Extend(s.done, s.rest) == Extend(Plan.Input, criteria)
  {
    StartConsistent(t, criteria);
    StepsKeep(t, Start(t, criteria), actions);
  }

  lemma InputShowsRows(t: Table, u: Table, v: View, input: Input)
    requires SameCells(t, u) && Shows(t, v, input)
    ensures RowsOfInput(u)(input) == RowsOfView()(v)
  {
    SameCellsSameList(t, u, v.posList);
    if input.BaseChunk? {
      SameJob(t, u, WholeChunk(input.chunk));
    }
    if v.posList != [] {
      assert v.target == t;
    }
  }

  lemma InputsShowRows(t: Table, u: Table, vs: seq<View>, inputs: seq<Input>)
    requires SameCells(t, u) && |vs| == |inputs| && forall k :: 0 <= k < |vs| ==> Shows(t, vs[k], inputs[k])
    ensures RowsShown(u, inputs) == RowsOfViews(vs)
  {
    forall k | 0 <= k < |inputs| ensures RowsOfInput(u)(inputs[k]) == RowsOfView()(vs[k]) {
      InputShowsRows(t, u, vs[k], inputs[k]);
    }
    assert Map(inputs, RowsOfInput(u)) == Map(vs, RowsOfView());
  }

  lemma ConsistentShowsRows(t: Table, s: PipelineState)
    requires Scannable(t) && Consistent(t, s)
    ensures ChunksOk(t.chunks) && RowsShown(s.table, s.inputs) == FilterRows(Rows(t), Criteria(s.done))
  {
    var u := Output(t, s.done);
    PipelineFiltersRows(t, s.done);
    RowsByViews(u);
    InputsShowRows(t, s.table, Views(u), s.inputs);
  }

  /** In every such state, the inputs of the running scan, read in the table as it is now, show exactly
      the original rows that satisfy the criteria of the finished scans, in order. After the last scan
      these are the rows that satisfy all criteria. */
  lemma InterleavedPipelineFiltersRows(t: Table, criteria: seq<Predicate>, actions: seq<Action>)
    requires Scannable(t) && DataTable(t) && InColumns(t, criteria)
    requires EnabledAll(Start(t, criteria), actions)
    ensures ChunksOk(t.chunks)
    ensures var s := After(Start(t, criteria), actions);
      && RowsShown(s.table, s.inputs) == FilterRows(Rows(t), Criteria(s.done))
      && (s.rest == [] ==>
           RowsShown(s.table, s.inputs) == FilterRows(Rows(t), Criteria(Extend(Plan.Input, criteria))))
  {
    CompressionIsInvisible(t, criteria, actions);
    ConsistentShowsRows(t, After(Start(t, criteria), actions));
  }

  /** Compression never blocks a pipeline: until the last scan is finished some step of it is possible. */
  lemma NeverStuck(t: Table, criteria: seq<Predicate>, actions: seq<Action>)
    requires Scannable(t) && DataTable(t) && InColumns(t, criteria)
    requires EnabledAll(Start(t, criteria), actions)
    ensures var s := After(Start(t, criteria), actions);
      s.rest != [] ==> Enabled(s, Read) || Enabled(s, FinishInput) || Enabled(s, FinishScan)
  {
    CompressionIsInvisible(t, criteria, actions);
    var s := After(Start(t, criteria), actions);
    if s.Scanning() && |s.parts| < |s.CurrentJobs()| {
      CurrentInputValid(t, s);
      NextRead(t, s.table, s.rest[0], s.inputs[|s.results|], s.parts);
    }
  }

  /** While the base table is scanned, each list found so far is what the scan operator finds in that
      chunk of the original table and in that chunk as it is now. */
  lemma InterleavedScanIsScan(t: Table, criteria: seq<Predicate>, actions: seq<Action>, k: nat)
    requires Scannable(t) && DataTable(t) && InColumns(t, criteria)
    requires EnabledAll(Start(t, criteria), actions)
    requires var s := After(Start(t, criteria), actions); s.done.Input? && s.rest != [] && k < |s.results|
    ensures var s := After(Start(t, criteria), actions);
      && k < |t.chunks| == |s.table.chunks| && s.rest[0].column < |t.columns| == |s.table.columns|
      && s.rest[0].column < |t.chunks[k].segments| && s.rest[0].column < |s.table.chunks[k].segments|
      && s.results[k] == TableScan.FoundView(t, s.rest[0], k).posList
      && s.results[k] == TableScan.FoundView(s.table, s.rest[0], k).posList
  {
    CompressionIsInvisible(t, criteria, actions);
    var s := After(Start(t, criteria), actions);
    assert Shows(t, Views(t)[k], s.inputs[k]);
    assert DataChunk(t.chunks[k], |t.columns|);
    assert DataSegment(t.chunks[k].segments[0]);
    var p := s.rest[0];
    ReadIsSelection(t, p, WholeChunk(k));
    SameCellsSameRead(t, s.table, p, WholeChunk(k));
    WholeChunkReadIsScan(t, p, k);
    WholeChunkReadIsScan(s.table, p, k);
  }

  /** While position lists are scanned, each list found so far, put together from runs between which the
      base table changed, is what one scan of the reference segment finds in the original table and in
      the table as it is now, where that scan succeeds. */
  lemma InterleavedRunsAreSelection(t: Table, criteria: seq<Predicate>, actions: seq<Action>, k: nat)
    requires Scannable(t) && DataTable(t) && InColumns(t, criteria)
    requires EnabledAll(Start(t, criteria), actions)
    requires var s := After(Start(t, criteria), actions);
      k < |s.results| && s.rest != [] && (k < |s.inputs| ==> s.inputs[k].List?)
    ensures var s := After(Start(t, criteria), actions);
      && k < |s.inputs| && s.inputs[k].List?
      && AllReachable(s.table, s.rest[0].column, s.inputs[k].posList)
      && s.results[k] == Select(t, s.rest[0], s.inputs[k].posList)
      && s.results[k] == Select(s.table, s.rest[0], s.inputs[k].posList)
  {
    CompressionIsInvisible(t, criteria, actions);
    var s := After(Start(t, criteria), actions);
    assert Shows(t, Views(Output(t, s.done))[k], s.inputs[k]);
    SameCellsSameSelection(t, s.table, s.rest[0], s.inputs[k].posList);
  }
}
