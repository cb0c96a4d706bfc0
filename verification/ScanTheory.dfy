/** What table scans mean: a scan filters the logical rows of its input, and any pipeline of scans
    filters the base rows by all its predicates at once. */
module ScanTheory {
  import opened Sequences
  import opened Values
  import opened Comparison
  import opened Storage

  // ---------------------------------------------------------------------------------------------
  // Rows behind positions
  // ---------------------------------------------------------------------------------------------

  /** A position in a chunk that holds its values itself. */
  ghost predicate DataPosition(t: Table, r: RowID) {
    && r.chunk < |t.chunks|
    && DataChunk(t.chunks[r.chunk], |t.columns|)
    && r.offset < RowCount(t.chunks[r.chunk])
  }

  ghost predicate DataPositions(t: Table, posList: seq<RowID>) {
    forall i :: 0 <= i < |posList| ==> DataPosition(t, posList[i])
  }

  /** The whole row a position designates. */
  ghost function RowAt(t: Table): RowID -> seq<Value> {
    r =>
      if DataPosition(t, r) then
        DataChunkOk(t.chunks[r.chunk], |t.columns|);
        Row(t.chunks[r.chunk], r.offset)
      else []
  }

  /** The rows of a position list, read in this table. */
  ghost function RowsAt(t: Table, posList: seq<RowID>): (rows: seq<seq<Value>>)
    ensures |rows| == |posList|
    ensures forall i :: 0 <= i < |posList| ==> rows[i] == RowAt(t)(posList[i])
  {
    Map(posList, RowAt(t))
  }

  ghost predicate Matches(row: seq<Value>, p: Predicate) {
    p.column < |row| && Compare(p.op, row[p.column], p.value)
  }

  ghost function Satisfies(ps: set<Predicate>): seq<Value> -> bool {
    row => forall p :: p in ps ==> Matches(row, p)
  }

  /** The one-line specification of a scan pipeline. */
  ghost function FilterRows(rows: seq<seq<Value>>, ps: set<Predicate>): seq<seq<Value>> {
    Filter(rows, Satisfies(ps))
  }

  ghost function RowSatisfies(t: Table, ps: set<Predicate>): RowID -> bool {
    r => Satisfies(ps)(RowAt(t)(r))
  }

  /** The positions whose rows satisfy all predicates, in list order. */
  ghost function SelectAll(t: Table, ps: set<Predicate>, posList: seq<RowID>): seq<RowID> {
    Filter(posList, RowSatisfies(t, ps))
  }

  lemma ReachableByRow(t: Table, p: Predicate, r: RowID)
    requires DataPosition(t, r) && p.column < |t.columns|
    ensures Reachable(t, p.column, r)
    ensures Holds(t, p, r) <==> Matches(RowAt(t)(r), p)
  {
    DataChunkOk(t.chunks[r.chunk], |t.columns|);
    assert SegmentOk(t.chunks[r.chunk].segments[p.column], RowCount(t.chunks[r.chunk]));
  }

  /** The selection by cells of one column is the selection by rows with one predicate. */
  lemma SelectIsSelectAll(t: Table, p: Predicate, posList: seq<RowID>)
    requires DataPositions(t, posList) && p.column < |t.columns|
    ensures AllReachable(t, p.column, posList)
    ensures Select(t, p, posList) == SelectAll(t, {p}, posList)
  {
    forall i | 0 <= i < |posList|
      ensures Reachable(t, p.column, posList[i]) && Keeps(t, p)(posList[i]) == RowSatisfies(t, {p})(posList[i])
    {
      ReachableByRow(t, p, posList[i]);
      assert RowSatisfies(t, {p})(posList[i]) == Matches(RowAt(t)(posList[i]), p);
    }
    FilterSame(posList, Keeps(t, p), RowSatisfies(t, {p}));
  }

  lemma SatisfiesConcat(ps: set<Predicate>, qs: set<Predicate>, row: seq<Value>)
    ensures Satisfies(ps + qs)(row) <==> Satisfies(ps)(row) && Satisfies(qs)(row)
  {}

  lemma SelectAllCompose(t: Table, ps: set<Predicate>, qs: set<Predicate>, posList: seq<RowID>)
    ensures SelectAll(t, qs, SelectAll(t, ps, posList)) == SelectAll(t, ps + qs, posList)
  {
    forall r ensures RowSatisfies(t, ps + qs)(r) <==> RowSatisfies(t, ps)(r) && RowSatisfies(t, qs)(r) {
      SatisfiesConcat(ps, qs, RowAt(t)(r));
    }
    FilterCompose(posList, RowSatisfies(t, ps), RowSatisfies(t, qs), RowSatisfies(t, ps + qs));
  }

  lemma FilterRowsCompose(rows: seq<seq<Value>>, ps: set<Predicate>, qs: set<Predicate>)
    ensures FilterRows(FilterRows(rows, ps), qs) == FilterRows(rows, ps + qs)
  {
    forall row ensures Satisfies(ps + qs)(row) <==> Satisfies(ps)(row) && Satisfies(qs)(row) {
      SatisfiesConcat(ps, qs, row);
    }
    FilterCompose(rows, Satisfies(ps), Satisfies(qs), Satisfies(ps + qs));
  }

  /** The selected positions are positions of the list, and reading them gives the filtered rows. */
  lemma SelectAllFilters(t: Table, ps: set<Predicate>, posList: seq<RowID>)
    requires DataPositions(t, posList)
    ensures |SelectAll(t, ps, posList)| <= |posList| && DataPositions(t, SelectAll(t, ps, posList))
    ensures RowsAt(t, SelectAll(t, ps, posList)) == FilterRows(RowsAt(t, posList), ps)
  {
    FilterElements(posList, RowSatisfies(t, ps));
    var selected := SelectAll(t, ps, posList);
    forall i | 0 <= i < |selected| ensures DataPosition(t, selected[i]) {
      assert selected[i] in posList;
    }
    FilterMap(posList, RowAt(t), Satisfies(ps), RowSatisfies(t, ps));
  }

  // ---------------------------------------------------------------------------------------------
  // Views: what a chunk shows
  // ---------------------------------------------------------------------------------------------

  /** A chunk seen as positions of a table: its own positions in its own table, or a position list in
      the table it refers to. */
  datatype View = View(target: Table, posList: seq<RowID>)

  ghost predicate ValidView(v: View, width: nat) {
    |v.target.columns| == width && |v.posList| <= MAX_CHUNK_ROWS && DataPositions(v.target, v.posList)
  }

  /** The chunk `_create_chunk` builds: segment c refers to column c, all with one position list. */
  function ReferenceChunk(v: View): (c: Chunk)
    ensures |c.segments| == |v.target.columns|
    ensures forall k :: 0 <= k < |c.segments| ==> c.segments[k] == Reference(v.target, k, v.posList)
  {
    Chunk(seq(|v.target.columns|, k requires 0 <= k < |v.target.columns| => Reference(v.target, k, v.posList)))
  }

  ghost predicate ReferringChunk(c: Chunk, width: nat) {
    && c.segments != [] && c.segments[0].Reference?
    && ValidView(View(c.segments[0].table, c.segments[0].posList), width)
    && c == ReferenceChunk(View(c.segments[0].table, c.segments[0].posList))
  }

  /** A table scans can read: each chunk holds its values or is of the form scans produce. */
  ghost predicate Scannable(t: Table) {
    && t.columns != []
    && forall k :: 0 <= k < |t.chunks| ==>
         DataChunk(t.chunks[k], |t.columns|) || ReferringChunk(t.chunks[k], |t.columns|)
  }

  function ViewOf(t: Table, k: nat): View
    requires k < |t.chunks| && t.chunks[k].segments != []
  {
    match t.chunks[k].segments[0]
    case Reference(target, _, posList) => View(target, posList)
    case _ => View(t, Positions(k, RowCount(t.chunks[k])))
  }

  lemma ViewOfValid(t: Table, k: nat)
    requires Scannable(t) && k < |t.chunks|
    ensures t.chunks[k].segments != []
    ensures ValidView(ViewOf(t, k), |t.columns|)
  {
    var c := t.chunks[k];
    if DataChunk(c, |t.columns|) {
      forall i | 0 <= i < RowCount(c) ensures DataPosition(t, Positions(k, RowCount(c))[i]) {
      }
    }
  }

  ghost predicate ValidViews(vs: seq<View>, width: nat) {
    forall k :: 0 <= k < |vs| ==> ValidView(vs[k], width)
  }

  /** The views of all chunks of a table. */
  ghost function Views(t: Table): (vs: seq<View>)
    requires Scannable(t)
    ensures |vs| == |t.chunks| && ValidViews(vs, |t.columns|)
    ensures forall k :: 0 <= k < |vs| ==> t.chunks[k].segments != [] && vs[k] == ViewOf(t, k)
  {
    seq(|t.chunks|, k requires 0 <= k < |t.chunks| => ViewOfValid(t, k); ViewOf(t, k))
  }

  ghost function RowsOfView(): View -> seq<seq<Value>> {
    (v: View) => RowsAt(v.target, v.posList)
  }

  ghost function RowsOfViews(vs: seq<View>): seq<seq<Value>> {
    Flatten(Map(vs, RowsOfView()))
  }

  lemma ReferenceChunkRows(v: View)
    requires ValidView(v, |v.target.columns|) && v.target.columns != []
    ensures ChunkOk(ReferenceChunk(v)) && RowCount(ReferenceChunk(v)) == |v.posList|
    ensures ChunkRows(ReferenceChunk(v)) == RowsOfView()(v)
  {
    var c, t := ReferenceChunk(v), v.target;
    forall k, i | 0 <= k < |c.segments| && 0 <= i < |v.posList|
      ensures Readable(c.segments[k], i)
      ensures |RowAt(t)(v.posList[i])| == |t.columns| && Cell(c.segments[k], i) == RowAt(t)(v.posList[i])[k]
    {
      assert DataPosition(t, v.posList[i]);
      DataChunkOk(t.chunks[v.posList[i].chunk], |t.columns|);
      assert SegmentOk(t.chunks[v.posList[i].chunk].segments[k], RowCount(t.chunks[v.posList[i].chunk]));
    }
    forall k | 0 <= k < |c.segments| ensures SegmentOk(c.segments[k], RowCount(c)) {
    }
    forall i | 0 <= i < |v.posList| ensures Row(c, i) == RowAt(t)(v.posList[i]) {
      assert DataPosition(t, v.posList[i]);
      DataChunkOk(t.chunks[v.posList[i].chunk], |t.columns|);
    }
  }

  lemma ViewShowsChunk(t: Table, k: nat)
    requires Scannable(t) && k < |t.chunks|
    ensures t.chunks[k].segments != [] && ValidView(ViewOf(t, k), |t.columns|)
    ensures ChunkOk(t.chunks[k])
    ensures ChunkRows(t.chunks[k]) == RowsOfView()(ViewOf(t, k))
  {
    ViewOfValid(t, k);
    var v := ViewOf(t, k);
    if ReferringChunk(t.chunks[k], |t.columns|) {
      ReferenceChunkRows(v);
    } else {
      DataChunkOk(t.chunks[k], |t.columns|);
      forall i | 0 <= i < RowCount(t.chunks[k]) ensures Row(t.chunks[k], i) == RowAt(t)(v.posList[i]) {
        assert DataPosition(t, v.posList[i]);
      }
    }
  }

  /** The rows of a table are the rows its views show. */
  lemma RowsByViews(t: Table)
    requires Scannable(t)
    ensures ChunksOk(t.chunks)
    ensures Rows(t) == RowsOfViews(Views(t))
  {
    forall k | 0 <= k < |t.chunks|
      ensures ChunkOk(t.chunks[k]) && ChunkRows(t.chunks[k]) == RowsOfView()(Views(t)[k])
    {
      ViewShowsChunk(t, k);
    }
    assert RowLists(t.chunks) == Map(Views(t), RowsOfView());
  }

  // ---------------------------------------------------------------------------------------------
  // Selecting from views
  // ---------------------------------------------------------------------------------------------

  /** Every view filtered by the predicates, views left without rows dropped. */
  ghost function SelectViews(vs: seq<View>, ps: set<Predicate>): seq<View> {
    if vs == [] then []
    else
      var v := vs[|vs| - 1];
      var selected := SelectAll(v.target, ps, v.posList);
      var before := SelectViews(vs[..|vs| - 1], ps);
      if selected == [] then before else before + [View(v.target, selected)]
  }

  lemma SelectViewsSnoc(vs: seq<View>, v: View, ps: set<Predicate>)
    ensures var selected := SelectAll(v.target, ps, v.posList);
      SelectViews(vs + [v], ps)
      == if selected == [] then SelectViews(vs, ps) else SelectViews(vs, ps) + [View(v.target, selected)]
  {
    assert (vs + [v])[..|vs|] == vs;
  }

  lemma SelectViewsPrefix(vs: seq<View>, k: nat, ps: set<Predicate>)
    requires k < |vs|
    ensures var selected := SelectAll(vs[k].target, ps, vs[k].posList);
      SelectViews(vs[..k + 1], ps)
      == if selected == [] then SelectViews(vs[..k], ps) else SelectViews(vs[..k], ps) + [View(vs[k].target, selected)]
  {
    assert vs[..k + 1] == vs[..k] + [vs[k]];
    SelectViewsSnoc(vs[..k], vs[k], ps);
  }

  lemma RowsOfViewsSnoc(vs: seq<View>, v: View)
    ensures RowsOfViews(vs + [v]) == RowsOfViews(vs) + RowsOfView()(v)
  {
    assert Map(vs + [v], RowsOfView()) == Map(vs, RowsOfView()) + [RowsOfView()(v)];
    FlattenSnoc(Map(vs, RowsOfView()), RowsOfView()(v));
  }

  ghost predicate NoneEmpty(vs: seq<View>) {
    forall k :: 0 <= k < |vs| ==> vs[k].posList != []
  }

  /** The selected views are valid and not empty. */
  lemma {:induction false} SelectViewsValid(vs: seq<View>, ps: set<Predicate>, width: nat)
    requires ValidViews(vs, width)
    ensures ValidViews(SelectViews(vs, ps), width) && NoneEmpty(SelectViews(vs, ps))
  {
    if vs != [] {
      SelectViewsValid(vs[..|vs| - 1], ps, width);
      SelectAllFilters(vs[|vs| - 1].target, ps, vs[|vs| - 1].posList);
    }
  }

  /** The selected views show exactly the matching rows. */
  lemma {:induction false} SelectViewsFilters(vs: seq<View>, ps: set<Predicate>, width: nat)
    requires ValidViews(vs, width)
    ensures RowsOfViews(SelectViews(vs, ps)) == FilterRows(RowsOfViews(vs), ps)
  {
    if vs != [] {
      var init, v := vs[..|vs| - 1], vs[|vs| - 1];
      SelectViewsFilters(init, ps, width);
      OneMoreView(init, v, ps, width);
      InitLast(vs);
    }
  }

  lemma OneMoreView(vs: seq<View>, v: View, ps: set<Predicate>, width: nat)
    requires ValidView(v, width)
    requires RowsOfViews(SelectViews(vs, ps)) == FilterRows(RowsOfViews(vs), ps)
    ensures RowsOfViews(SelectViews(vs + [v], ps)) == FilterRows(RowsOfViews(vs + [v]), ps)
  {
    var selected := View(v.target, SelectAll(v.target, ps, v.posList));
    SelectAllFilters(v.target, ps, v.posList);
    RowsOfViewsSnoc(vs, v);
    FilterConcat(RowsOfViews(vs), RowsOfView()(v), Satisfies(ps));
    SelectViewsSnoc(vs, v, ps);
    if selected.posList == [] {
      AppendNothing(FilterRows(RowsOfViews(vs), ps));
    } else {
      RowsOfViewsSnoc(SelectViews(vs, ps), selected);
    }
  }

  lemma {:induction false} SelectViewsCompose(vs: seq<View>, ps: set<Predicate>, qs: set<Predicate>)
    ensures SelectViews(SelectViews(vs, ps), qs) == SelectViews(vs, ps + qs)
  {
    if vs != [] {
      var init, v := vs[..|vs| - 1], vs[|vs| - 1];
      SelectViewsCompose(init, ps, qs);
      SelectAllCompose(v.target, ps, qs, v.posList);
      SelectViewsSnoc(SelectViews(init, ps), View(v.target, SelectAll(v.target, ps, v.posList)), qs);
    }
  }

  // ---------------------------------------------------------------------------------------------
  // Scans of tables
  // ---------------------------------------------------------------------------------------------

  function ReferenceChunks(vs: seq<View>): (cs: seq<Chunk>)
    ensures |cs| == |vs|
    ensures forall k :: 0 <= k < |cs| ==> cs[k] == ReferenceChunk(vs[k])
  {
    seq(|vs|, k requires 0 <= k < |vs| => ReferenceChunk(vs[k]))
  }

  /** The views of a scan's output. A scan without result shows one empty view of its own input. */
  ghost function OutputViews(t: Table, p: Predicate): seq<View>
    requires Scannable(t)
  {
    var vs := SelectViews(Views(t), {p});
    if vs == [] then [View(t, [])] else vs
  }

  /** The table a scan returns. */
  ghost function ScanTable(t: Table, p: Predicate): Table
    requires Scannable(t)
  {
    Table(MAX_CHUNK_ROWS, t.columns, ReferenceChunks(OutputViews(t, p)))
  }

  /** The output of a scan can be scanned again, and shows exactly the output views. */
  lemma ScanOutputScannable(t: Table, p: Predicate)
    requires Scannable(t)
    ensures Scannable(ScanTable(t, p))
    ensures Views(ScanTable(t, p)) == OutputViews(t, p)
  {
    var u, vs := ScanTable(t, p), OutputViews(t, p);
    SelectViewsValid(Views(t), {p}, |t.columns|);
    forall k | 0 <= k < |u.chunks| ensures ReferringChunk(u.chunks[k], |u.columns|) && ViewOf(u, k) == vs[k] {
      assert ValidView(vs[k], |t.columns|);
    }
  }

  /** A scan keeps the schema and returns exactly the matching rows, whole and in input order. */
  lemma ScanFiltersRows(t: Table, p: Predicate)
    requires Scannable(t)
    ensures Scannable(ScanTable(t, p)) && ChunksOk(t.chunks) && ChunksOk(ScanTable(t, p).chunks)
    ensures ScanTable(t, p).columns == t.columns
    ensures Rows(ScanTable(t, p)) == FilterRows(Rows(t), {p})
  {
    ScanOutputScannable(t, p);
    RowsByViews(t);
    RowsByViews(ScanTable(t, p));
    SelectViewsFilters(Views(t), {p}, |t.columns|);
    RowsOfViewsSnoc([], View(t, []));
    assert [] + [View(t, [])] == [View(t, [])];
  }

  /** The column holds integers. */
  ghost predicate IntColumn(rows: seq<seq<Value>>, column: nat) {
    forall i :: 0 <= i < |rows| ==> column < |rows[i]| && rows[i][column].Int?
  }

  ghost function IntTest(column: nat, op: ScanType, x: int): seq<Value> -> bool {
    (row: seq<Value>) =>
      && column < |row| && row[column].Int?
      && Asks(op, row[column].i < x, row[column].i == x, row[column].i > x)
  }

  /** A scan of an integer column returns exactly the rows whose number is smaller than, equal to or greater
      than the search value, as the operator asks. */
  lemma IntScan(t: Table, column: nat, op: ScanType, x: int)
    requires Scannable(t) && ChunksOk(t.chunks) && IntColumn(Rows(t), column)
    ensures ChunksOk(ScanTable(t, Predicate(column, op, Int(x))).chunks)
    ensures Rows(ScanTable(t, Predicate(column, op, Int(x)))) == Filter(Rows(t), IntTest(column, op, x))
  {
    ScanFiltersRows(t, Predicate(column, op, Int(x)));
    FilterInts(Rows(t), column, op, x);
  }

  lemma FilterInts(rows: seq<seq<Value>>, column: nat, op: ScanType, x: int)
    requires IntColumn(rows, column)
    ensures FilterRows(rows, {Predicate(column, op, Int(x))}) == Filter(rows, IntTest(column, op, x))
  {
    var p := Predicate(column, op, Int(x));
    forall row | row in rows ensures Satisfies({p})(row) == IntTest(column, op, x)(row) {
      assert Satisfies({p})(row) == Matches(row, p);
      CompareMeans(op, row[column], Int(x));
    }
    FilterSame(rows, Satisfies({p}), IntTest(column, op, x));
  }

  /** In particular a less-than scan returns the rows whose number is smaller. */
  lemma LessThanScan(t: Table, column: nat, x: int)
    requires Scannable(t) && ChunksOk(t.chunks) && IntColumn(Rows(t), column)
    ensures ChunksOk(ScanTable(t, Predicate(column, OpLessThan, Int(x))).chunks)
    ensures Rows(ScanTable(t, Predicate(column, OpLessThan, Int(x))))
         == Filter(Rows(t), (row: seq<Value>) => column < |row| && row[column].Int? && row[column].i < x)
  {
    IntScan(t, column, OpLessThan, x);
    FilterSame(Rows(t), IntTest(column, OpLessThan, x),
               (row: seq<Value>) => column < |row| && row[column].Int? && row[column].i < x);
  }

  // ---------------------------------------------------------------------------------------------
  // Pipelines
  // ---------------------------------------------------------------------------------------------

  /** A pipeline of scans, each reading the output of the one before. */
  datatype Plan = Input | Scan(source: Plan, criterion: Predicate)

  function Criteria(plan: Plan): set<Predicate> {
    match plan
    case Input => {}
    case Scan(source, p) => Criteria(source) + {p}
  }

  /** The output of a pipeline on a table. */
  ghost function Output(t: Table, plan: Plan): (r: Table)
    requires Scannable(t)
    ensures Scannable(r) && r.columns == t.columns
  {
    match plan
    case Input => t
    case Scan(source, p) =>
      ScanOutputScannable(Output(t, source), p);
      ScanTable(Output(t, source), p)
  }

  /** Any pipeline of scans returns exactly the input rows that satisfy all its criteria: whole rows,
      in input order, duplicates kept. */
  lemma {:induction false} PipelineFiltersRows(t: Table, plan: Plan)
    requires Scannable(t)
    ensures ChunksOk(t.chunks) && ChunksOk(Output(t, plan).chunks)
    ensures Rows(Output(t, plan)) == FilterRows(Rows(t), Criteria(plan))
  {
    RowsByViews(t);
    match plan
    case Input =>
      FilterAll(Rows(t), Satisfies({}));
    case Scan(source, p) =>
      PipelineFiltersRows(t, source);
      ScanFiltersRows(Output(t, source), p);
      FilterRowsCompose(Rows(t), Criteria(source), {p});
  }

  /** The position lists of a pipeline's output: each chunk of the input filtered by all criteria at
      once, chunks without a result dropped, every list pointing directly into the table the input
      chunk showed. Without any result there is a single empty chunk. */
  lemma {:induction false} PipelineSelectsPositions(t: Table, plan: Plan)
    requires Scannable(t) && plan.Scan?
    ensures var vs := SelectViews(Views(t), Criteria(plan));
      if vs != []
      then Output(t, plan) == Table(MAX_CHUNK_ROWS, t.columns, ReferenceChunks(vs)) && Views(Output(t, plan)) == vs
      else |Views(Output(t, plan))| == 1 && Views(Output(t, plan))[0].posList == []
  {
    var source, p := plan.source, plan.criterion;
    var u := Output(t, source);
    ScanOutputScannable(u, p);
    if source.Input? {
      assert Criteria(plan) == {p};
    } else {
      PipelineSelectsPositions(t, source);
      SelectViewsCompose(Views(t), Criteria(source), {p});
      if SelectViews(Views(t), Criteria(source)) == [] {
        SelectViewsSnoc([], Views(u)[0], {p});
        assert [] + [Views(u)[0]] == Views(u);
      }
    }
  }

  /** Two pipelines with the same criteria, in any order and with any repetition, return the same rows;
      unless the result is empty they return the same table, position list by position list. In
      particular two scans commute. */
  lemma PipelinesCommute(t: Table, plan: Plan, other: Plan)
    requires Scannable(t) && Criteria(plan) == Criteria(other)
    ensures ChunksOk(Output(t, plan).chunks) && ChunksOk(Output(t, other).chunks)
    ensures Rows(Output(t, plan)) == Rows(Output(t, other))
    ensures Rows(Output(t, plan)) != [] ==> Output(t, plan) == Output(t, other)
  {
    PipelineFiltersRows(t, plan);
    PipelineFiltersRows(t, other);
    assert other.Scan? ==> other.criterion in Criteria(plan);
    assert plan.Scan? ==> plan.criterion in Criteria(other);
    if plan.Scan? {
      PipelineSelectsPositions(t, plan);
      PipelineSelectsPositions(t, other);
      if SelectViews(Views(t), Criteria(plan)) == [] {
        EmptyViewHasNoRows(Output(t, plan));
      }
    }
  }

  lemma EmptyViewHasNoRows(t: Table)
    requires Scannable(t) && |Views(t)| == 1 && Views(t)[0].posList == []
    ensures ChunksOk(t.chunks) && Rows(t) == []
  {
    RowsByViews(t);
    FlattenEmpty(Map(Views(t), RowsOfView()));
  }

  /** Over a table of value and dictionary chunks, every reference of a non-empty pipeline result
      points directly to that table, never to an intermediate one, and no chunk is empty. An empty
      chunk appears only as the sole chunk of an empty result. */
  lemma PipelineRefersToBase(base: Table, plan: Plan)
    requires Scannable(base) && DataTable(base) && plan.Scan?
    ensures ChunksOk(Output(base, plan).chunks)
    ensures Rows(Output(base, plan)) != [] ==>
      forall k :: 0 <= k < |Output(base, plan).chunks| ==>
        && Views(Output(base, plan))[k].target == base
        && Views(Output(base, plan))[k].posList != []
        && Output(base, plan).chunks[k] == ReferenceChunk(Views(Output(base, plan))[k])
    ensures Rows(Output(base, plan)) == [] ==>
      |Output(base, plan).chunks| == 1 && Views(Output(base, plan))[0].posList == []
  {
    PipelineSelectsPositions(base, plan);
    SelectedFromBase(base, Criteria(plan));
    RowsByViews(Output(base, plan));
    if SelectViews(Views(base), Criteria(plan)) == [] {
      EmptyViewHasNoRows(Output(base, plan));
    }
  }

  lemma SelectedFromBase(base: Table, ps: set<Predicate>)
    requires Scannable(base) && DataTable(base)
    ensures var vs := SelectViews(Views(base), ps);
      && (forall k :: 0 <= k < |vs| ==> vs[k].target == base && vs[k].posList != [])
      && (vs == [] <==> RowsOfViews(vs) == [])
  {
    forall k | 0 <= k < |base.chunks| ensures Views(base)[k].target == base {
      assert DataChunk(base.chunks[k], |base.columns|);
      assert DataSegment(base.chunks[k].segments[0]);
    }
    SelectViewsTarget(Views(base), ps, base);
    SelectViewsValid(Views(base), ps, |base.columns|);
    NonEmptyViewsHaveRows(SelectViews(Views(base), ps));
  }

  lemma {:induction false} SelectViewsTarget(vs: seq<View>, ps: set<Predicate>, target: Table)
    requires forall k :: 0 <= k < |vs| ==> vs[k].target == target
    ensures forall k :: 0 <= k < |SelectViews(vs, ps)| ==> SelectViews(vs, ps)[k].target == target
  {
    if vs != [] {
      SelectViewsTarget(vs[..|vs| - 1], ps, target);
    }
  }

  lemma NonEmptyViewsHaveRows(vs: seq<View>)
    requires NoneEmpty(vs)
    ensures vs == [] <==> RowsOfViews(vs) == []
  {
    FlattenEmpty(Map(vs, RowsOfView()));
    if vs != [] {
      assert |Map(vs, RowsOfView())[0]| == |vs[0].posList|;
    }
  }

  // ---------------------------------------------------------------------------------------------
  // Complementary operators
  // ---------------------------------------------------------------------------------------------

  /** A scan and the scan with the complementary operator (`=`/`!=`, `<`/`>=`, `<=`/`>`) split every
      position list: each occurrence is selected by exactly one of the two. */
  lemma {:induction false} ComplementPartitions(t: Table, p: Predicate, posList: seq<RowID>)
    requires AllReachable(t, p.column, posList)
    ensures var q := p.(op := Complement(p.op));
      && multiset(Select(t, p, posList)) + multiset(Select(t, q, posList)) == multiset(posList)
      && forall r :: !(r in Select(t, p, posList) && r in Select(t, q, posList))
  {
    var q := p.(op := Complement(p.op));
    FilterElements(posList, Keeps(t, p));
    FilterElements(posList, Keeps(t, q));
    if posList != [] {
      var init, last := posList[..|posList| - 1], posList[|posList| - 1];
      assert posList == init + [last];
      ComplementPartitions(t, p, init);
      assert Reachable(t, p.column, last);
    }
  }
}
