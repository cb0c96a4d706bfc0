/** The segment scanner: index fetchers over 64-bit counters, the scan loops over value and
    dictionary segments, and the scan of a reference segment in runs of equal chunk ids. */
module Scanner {
  import opened Sequences
  import opened Values
  import opened Wrappers
  import opened Dictionaries
  import opened Comparison
  import opened Storage

  /** Number of `size_t` values; unsigned arithmetic is modulo this (section 6.9.1 of
      ISO/IEC 14882:2017). */
  const SIZE_T: nat := 0x1_0000_0000_0000_0000

  /** Counters have eight bytes; the default chunk size is one below the greatest number of four bytes. */
  lemma CounterWidths()
    ensures SIZE_T == Capacity(8) && MAX_CHUNK_ROWS == Capacity(4) - 2
  {
    WidthHoldsBytes(Four);
    assert Capacity(8) == 256 * (256 * (256 * (256 * Capacity(4))));
  }

  /** What a fetcher hands out for counter value i: i itself, or the offset of the i-th position. */
  datatype Source = Continuous | PosList(posList: seq<RowID>) {
    predicate Defined(i: nat) {
      PosList? ==> i < |posList|
    }

    function At(i: nat): nat
      requires Defined(i)
    {
      if Continuous? then i else posList[i].offset
    }
  }

  /** `ContinuousIndexFetcher` and `PosListIndexFetcher`, which differ only in the source. */
  class IndexFetcher {
    const start: nat
    const end: nat
    const source: Source
    var current: nat

    /** The counter value that `next` moves to. */
    function Upcoming(): (i: nat)
      reads this
      ensures i < SIZE_T
    {
      (current + 1) % SIZE_T
    }

    constructor (start: nat, end: nat, source: Source)
      requires start < SIZE_T && end < SIZE_T
      ensures this.start == start && this.end == end && this.source == source
      ensures Upcoming() == start
    {
      this.start, this.end, this.source := start, end, source;
      // start - 1 wraps around at 0
      current := (start + SIZE_T - 1) % SIZE_T;
    }

    predicate HasNext()
      reads this
    {
      (current + 1) % SIZE_T < end
    }

    method Next() returns (index: nat)
      requires source.Defined(Upcoming())
      modifies this
      ensures index == source.At(old(Upcoming()))
      ensures Upcoming() == (old(Upcoming()) + 1) % SIZE_T
    {
      current := (current + 1) % SIZE_T;
      index := source.At(current);
    }
  }

  /** The indices of the interval [lo, hi), each once, in increasing order. */
  ghost function Interval(lo: nat, hi: nat, source: Source): (r: seq<nat>)
    requires forall i :: lo <= i < hi ==> source.Defined(i)
    ensures |r| == if lo <= hi then hi - lo else 0
    ensures forall i :: 0 <= i < |r| ==> r[i] == source.At(lo + i)
  {
    if lo >= hi then [] else Interval(lo, hi - 1, source) + [source.At(hi - 1)]
  }

  /** The has_next/next loop visits exactly the interval of the fetcher and then stops, also when the
      interval is empty or starts at 0. */
  method VisitAll(fetcher: IndexFetcher) returns (visited: seq<nat>)
    requires fetcher.Upcoming() == fetcher.start && fetcher.end < SIZE_T
    requires forall i :: fetcher.start <= i < fetcher.end ==> fetcher.source.Defined(i)
    modifies fetcher
    ensures visited == Interval(fetcher.start, fetcher.end, fetcher.source)
    ensures !fetcher.HasNext()
  {
    visited := [];
    ghost var i := fetcher.start;
    while fetcher.HasNext()
      invariant fetcher.start <= i && (i <= fetcher.end || i == fetcher.start)
      invariant fetcher.Upcoming() == i
      invariant visited == Interval(fetcher.start, i, fetcher.source)
      decreases fetcher.end - i
    {
      var index := fetcher.Next();
      visited := visited + [index];
      i := i + 1;
    }
  }

  /** A fetcher's interval can be read in a segment of this size. */
  ghost predicate InBounds(source: Source, lo: nat, hi: nat, size: nat) {
    forall i :: lo <= i < hi ==> source.Defined(i) && source.At(i) < size
  }

  /** The positions of one chunk that the indices of [lo, hi) visit and whose cell matches, in
      visiting order. */
  ghost function Matching(s: Segment, op: ScanType, cmp: Value, chunk: nat, source: Source, lo: nat, hi: nat)
      : seq<RowID>
    requires DataSegment(s) && InBounds(source, lo, hi, Size(s))
  {
    if lo >= hi then []
    else
      var offset := source.At(hi - 1);
      DataSegmentReadable(s, offset);
      var before := Matching(s, op, cmp, chunk, source, lo, hi - 1);
      if Compare(op, Cell(s, offset), cmp) then before + [RowID(chunk, offset)] else before
  }

  /** The conversion of an index to the 32-bit `ChunkOffset`. */
  function ToChunkOffset(index: nat): (offset: nat)
    ensures index <= MAX_UINT32 ==> offset == index
  {
    index % (MAX_UINT32 + 1)
  }

  ghost predicate ReadyFor(fetcher: IndexFetcher, size: nat)
    reads fetcher
  {
    && fetcher.start <= fetcher.end < SIZE_T
    && fetcher.Upcoming() == fetcher.start
    && InBounds(fetcher.source, fetcher.start, fetcher.end, size)
  }

  method ScanValueSegment(op: ScanType, chunk: nat, values: seq<Value>, cmp: Value, fetcher: IndexFetcher)
      returns (posList: seq<RowID>)
    requires |values| <= MAX_UINT32 && ReadyFor(fetcher, |values|)
    modifies fetcher
    ensures posList == Matching(Storage.Values(values), op, cmp, chunk, fetcher.source, fetcher.start, fetcher.end)
  {
    posList := [];
    ghost var i := fetcher.start;
    while fetcher.HasNext()
      invariant fetcher.start <= i <= fetcher.end
      invariant fetcher.Upcoming() == i
      invariant posList == Matching(Storage.Values(values), op, cmp, chunk, fetcher.source, fetcher.start, i)
      decreases fetcher.end - i
    {
      var index := fetcher.Next();
      if Compare(op, values[index], cmp) {
        posList := posList + [RowID(chunk, ToChunkOffset(index))];
      }
      i := i + 1;
    }
  }

  /** The visited positions whose id compares with the bound as the operator demands. */
  ghost function MatchingIds(ids: seq<nat>, op: ScanType, bound: nat, chunk: nat, source: Source, lo: nat, hi: nat)
      : seq<RowID>
    requires InBounds(source, lo, hi, |ids|)
  {
    if lo >= hi then []
    else
      var offset := source.At(hi - 1);
      var before := MatchingIds(ids, op, bound, chunk, source, lo, hi - 1);
      if CompareIds(op, ids[offset], bound) then before + [RowID(chunk, offset)] else before
  }

  /** Comparing ids with the looked-up bound selects what comparing decoded values selects. */
  lemma {:induction false} IdsDecide(
      segment: DictionarySegment, op: ScanType, cmp: Value, chunk: nat, source: Source, lo: nat, hi: nat)
    requires segment.Valid() && segment.Size() <= MAX_UINT32 && InBounds(source, lo, hi, segment.Size())
    ensures MatchingIds(segment.attributes.ids, op, BoundFor(op, segment.dictionary, cmp), chunk, source, lo, hi)
         == Matching(Dictionary(segment), op, cmp, chunk, source, lo, hi)
  {
    if lo < hi {
      IdsDecide(segment, op, cmp, chunk, source, lo, hi - 1);
      assert source.Defined(hi - 1) && source.At(hi - 1) < segment.Size();
      IdComparisonAgrees(op, segment.dictionary, cmp, segment.attributes.ids[source.At(hi - 1)]);
    }
  }

  /** The loop over the attribute vector. */
  method ScanIds(op: ScanType, chunk: nat, ids: seq<nat>, bound: nat, fetcher: IndexFetcher)
      returns (posList: seq<RowID>)
    requires |ids| <= MAX_UINT32 && ReadyFor(fetcher, |ids|)
    modifies fetcher
    ensures posList == MatchingIds(ids, op, bound, chunk, fetcher.source, fetcher.start, fetcher.end)
  {
    posList := [];
    ghost var i := fetcher.start;
    while fetcher.HasNext()
      invariant fetcher.start <= i <= fetcher.end
      invariant fetcher.Upcoming() == i
      invariant posList == MatchingIds(ids, op, bound, chunk, fetcher.source, fetcher.start, i)
      decreases fetcher.end - i
    {
      var index := fetcher.Next();
      if CompareIds(op, ids[index], bound) {
        posList := posList + [RowID(chunk, ToChunkOffset(index))];
      }
      i := i + 1;
    }
  }

  method ScanDictionarySegment(op: ScanType, chunk: nat, segment: DictionarySegment, cmp: Value, fetcher: IndexFetcher)
      returns (posList: seq<RowID>)
    requires segment.Valid() && segment.Size() <= MAX_UINT32 && ReadyFor(fetcher, segment.Size())
    modifies fetcher
    ensures posList == Matching(Dictionary(segment), op, cmp, chunk, fetcher.source, fetcher.start, fetcher.end)
  {
    var bound := GetValueId(op, segment.dictionary, cmp);
    posList := ScanIds(op, chunk, segment.attributes.ids, bound, fetcher);
    IdsDecide(segment, op, cmp, chunk, fetcher.source, fetcher.start, fetcher.end);
  }

  /** On a run of positions of one chunk, the scan of its segment is the selection. */
  lemma {:induction false} RunIsSelection(t: Table, p: Predicate, chunk: nat, posList: seq<RowID>, lo: nat, hi: nat)
    requires lo <= hi <= |posList| && AllReachable(t, p.column, posList[lo..hi])
    requires chunk < |t.chunks| && p.column < |t.chunks[chunk].segments|
    requires DataSegment(t.chunks[chunk].segments[p.column])
    requires forall i :: lo <= i < hi ==> posList[i].chunk == chunk
    ensures InBounds(PosList(posList), lo, hi, Size(t.chunks[chunk].segments[p.column]))
    ensures Matching(t.chunks[chunk].segments[p.column], p.op, p.value, chunk, PosList(posList), lo, hi)
         == Select(t, p, posList[lo..hi])
  {
    forall i | lo <= i < hi ensures posList[i].offset < Size(t.chunks[chunk].segments[p.column]) {
      assert Reachable(t, p.column, posList[lo..hi][i - lo]);
    }
    if lo < hi {
      var run := posList[lo..hi - 1];
      RunIsSelection(t, p, chunk, posList, lo, hi - 1);
      assert posList[lo..hi] == run + [posList[hi - 1]];
      FilterSnoc(run, posList[hi - 1], Keeps(t, p));
      assert Reachable(t, p.column, posList[hi - 1]);
    }
  }

  /** Scanning a whole chunk is the selection from all its positions. */
  lemma {:induction false} ChunkIsSelection(t: Table, p: Predicate, chunk: nat, n: nat)
    requires chunk < |t.chunks| && p.column < |t.chunks[chunk].segments|
    requires DataSegment(t.chunks[chunk].segments[p.column])
    requires n <= Size(t.chunks[chunk].segments[p.column])
    ensures Matching(t.chunks[chunk].segments[p.column], p.op, p.value, chunk, Continuous, 0, n)
         == Select(t, p, Positions(chunk, n))
  {
    if n > 0 {
      var r := RowID(chunk, n - 1);
      ChunkIsSelection(t, p, chunk, n - 1);
      assert Positions(chunk, n) == Positions(chunk, n - 1) + [r];
      FilterSnoc(Positions(chunk, n - 1), r, Keeps(t, p));
      assert Reachable(t, p.column, r);
    }
  }

  // ---------------------------------------------------------------------------------------------
  // Reference segments
  // ---------------------------------------------------------------------------------------------

  /** A position whose chunk and column exist and whose segment either holds the cell or is itself a
      reference segment, which the scanner does not support. */
  ghost predicate Addressable(t: Table, column: nat, r: RowID) {
    && r.chunk < |t.chunks|
    && column < |t.chunks[r.chunk].segments|
    && (t.chunks[r.chunk].segments[column].Reference? || Reachable(t, column, r))
  }

  predicate Unsupported(t: Table, column: nat, r: RowID) {
    && r.chunk < |t.chunks|
    && column < |t.chunks[r.chunk].segments|
    && t.chunks[r.chunk].segments[column].Reference?
  }

  /** The scan of one run [lo, hi) of a position list, all in the same chunk. */
  method ScanRun(t: Table, p: Predicate, posList: seq<RowID>, chunk: nat, lo: nat, hi: nat)
      returns (r: Result<seq<RowID>>)
    requires lo < hi <= |posList| < SIZE_T
    requires forall i :: lo <= i < hi ==> posList[i].chunk == chunk && Addressable(t, p.column, posList[i])
    ensures r.Err? <==> Unsupported(t, p.column, posList[lo])
    ensures r.Ok? ==> r.value == Select(t, p, posList[lo..hi])
  {
    assert Addressable(t, p.column, posList[lo]);
    var segment := t.chunks[chunk].segments[p.column];
    if segment.Reference? {
      return Err("Unsupported segment type.");
    }
    forall i | lo <= i < hi ensures Reachable(t, p.column, posList[i]) {
      assert Addressable(t, p.column, posList[i]);
    }
    var fetcher := new IndexFetcher(lo, hi, PosList(posList));
    RunIsSelection(t, p, chunk, posList, lo, hi);
    if segment.Values? {
      var found := ScanValueSegment(p.op, chunk, segment.values, p.value, fetcher);
      r := Ok(found);
    } else {
      var found := ScanDictionarySegment(p.op, chunk, segment.encoded, p.value, fetcher);
      r := Ok(found);
    }
  }

  lemma SelectExtends(t: Table, p: Predicate, posList: seq<RowID>, lo: nat, hi: nat)
    requires lo <= hi <= |posList|
    ensures Select(t, p, posList[..hi]) == Select(t, p, posList[..lo]) + Select(t, p, posList[lo..hi])
  {
    FilterConcat(posList[..lo], posList[lo..hi], Keeps(t, p));
    assert posList[..lo] + posList[lo..hi] == posList[..hi];
  }

  /** None of the first n positions leads to a reference segment. */
  ghost predicate Supported(t: Table, column: nat, posList: seq<RowID>, n: nat)
    requires n <= |posList|
  {
    forall i :: 0 <= i < n ==> !Unsupported(t, column, posList[i])
  }

  /** Scans a run and adds what it finds to the result for the positions before it. */
  method ScanNextRun(t: Table, p: Predicate, posList: seq<RowID>, chunk: nat, lo: nat, hi: nat, result: seq<RowID>)
      returns (r: Result<seq<RowID>>)
    requires lo < hi <= |posList| < SIZE_T
    requires forall i :: lo <= i < hi ==> posList[i].chunk == chunk && Addressable(t, p.column, posList[i])
    requires result == Select(t, p, posList[..lo]) && Supported(t, p.column, posList, lo)
    ensures r.Err? ==> Unsupported(t, p.column, posList[lo])
    ensures r.Ok? ==> r.value == Select(t, p, posList[..hi]) && Supported(t, p.column, posList, hi)
  {
    var found := ScanRun(t, p, posList, chunk, lo, hi);
    SelectExtends(t, p, posList, lo, hi);
    match found
    case Ok(selected) => r := Ok(result + selected);
    case Err(message) => r := Err(message);
  }

  /** A maximal run [lo, hi) of positions in one chunk. */
  datatype Run = Run(chunk: nat, lo: nat, hi: nat)

  /** Where the run containing position `index - 1` begins. */
  function RunStart(posList: seq<RowID>, index: nat): (start: nat)
    requires 0 < index <= |posList|
    ensures start < index
    ensures forall i :: start <= i < index ==> posList[i].chunk == posList[start].chunk
  {
    if index == 1 then 0
    else
      var start := RunStart(posList, index - 1);
      if posList[index - 1].chunk != posList[start].chunk then index - 1 else start
  }

  /** The runs that are complete before `index`. */
  function RunsBefore(posList: seq<RowID>, index: nat): seq<Run>
    requires 0 < index <= |posList|
  {
    if index == 1 then []
    else
      var start := RunStart(posList, index - 1);
      if posList[index - 1].chunk != posList[start].chunk
      then RunsBefore(posList, index - 1) + [Run(posList[start].chunk, start, index - 1)]
      else RunsBefore(posList, index - 1)
  }

  /** The runs a reference scan cuts a list into. */
  function Runs(posList: seq<RowID>): seq<Run> {
    if posList == [] then []
    else
      var start := RunStart(posList, |posList|);
      RunsBefore(posList, |posList|) + [Run(posList[start].chunk, start, |posList|)]
  }

  /** A non-empty part of the list within one chunk. */
  ghost predicate ProperRun(posList: seq<RowID>, run: Run) {
    run.lo < run.hi <= |posList| && forall i :: run.lo <= i < run.hi ==> posList[i].chunk == run.chunk
  }

  ghost predicate ProperRuns(posList: seq<RowID>, runs: seq<Run>) {
    forall k :: 0 <= k < |runs| ==> ProperRun(posList, runs[k])
  }

  ghost function Part(posList: seq<RowID>, run: Run): seq<RowID>
    requires ProperRun(posList, run)
  {
    posList[run.lo..run.hi]
  }

  ghost function Parts(posList: seq<RowID>, runs: seq<Run>): (parts: seq<seq<RowID>>)
    requires ProperRuns(posList, runs)
    ensures |parts| == |runs|
    ensures forall k :: 0 <= k < |runs| ==> parts[k] == Part(posList, runs[k])
  {
    seq(|runs|, k requires 0 <= k < |runs| => Part(posList, runs[k]))
  }

  /** One more run covers the list one part further. */
  lemma NextPart(posList: seq<RowID>, runs: seq<Run>, run: Run)
    requires ProperRuns(posList, runs) && ProperRun(posList, run)
    requires Flatten(Parts(posList, runs)) == posList[..run.lo]
    ensures ProperRuns(posList, runs + [run])
    ensures Flatten(Parts(posList, runs + [run])) == posList[..run.hi]
  {
    assert Parts(posList, runs + [run]) == Parts(posList, runs) + [Part(posList, run)];
    FlattenSnoc(Parts(posList, runs), Part(posList, run));
    assert posList[..run.lo] + posList[run.lo..run.hi] == posList[..run.hi];
  }

  lemma {:induction false} RunsBeforeCover(posList: seq<RowID>, index: nat)
    requires 0 < index <= |posList|
    ensures ProperRuns(posList, RunsBefore(posList, index))
    ensures Flatten(Parts(posList, RunsBefore(posList, index))) == posList[..RunStart(posList, index)]
  {
    if index > 1 {
      RunsBeforeCover(posList, index - 1);
      var start := RunStart(posList, index - 1);
      if posList[index - 1].chunk != posList[start].chunk {
        NextPart(posList, RunsBefore(posList, index - 1), Run(posList[start].chunk, start, index - 1));
      }
    }
  }

  /** The runs lie within one chunk each and together make up the list, in order. */
  lemma RunsCover(posList: seq<RowID>)
    ensures ProperRuns(posList, Runs(posList))
    ensures Flatten(Parts(posList, Runs(posList))) == posList
  {
    if posList != [] {
      var start := RunStart(posList, |posList|);
      RunsBeforeCover(posList, |posList|);
      NextPart(posList, RunsBefore(posList, |posList|), Run(posList[start].chunk, start, |posList|));
      assert posList[..|posList|] == posList;
    }
  }

  /** What the loop over the list knows at `index`: the open run, and the result of those before it. */
  ghost predicate ScannedUpTo(
      t: Table, p: Predicate, posList: seq<RowID>, index: nat,
      chunk: nat, start: nat, result: seq<RowID>, runs: seq<Run>)
  {
    && 0 <= start < index <= |posList|
    && start == RunStart(posList, index) && chunk == posList[start].chunk
    && runs == RunsBefore(posList, index)
    && Supported(t, p.column, posList, start)
    && result == Select(t, p, posList[..start])
  }

  /** The loop: whenever the chunk id changes, the open run is scanned. */
  method ScanRuns(t: Table, p: Predicate, posList: seq<RowID>)
      returns (r: Result<seq<RowID>>, chunk: nat, start: nat, ghost runs: seq<Run>)
    requires 0 < |posList| < SIZE_T
    requires forall i :: 0 <= i < |posList| ==> Addressable(t, p.column, posList[i])
    ensures r.Err? ==> exists i :: 0 <= i < |posList| && Unsupported(t, p.column, posList[i])
    ensures r.Ok? ==> ScannedUpTo(t, p, posList, |posList|, chunk, start, r.value, runs)
  {
    r, chunk, start, runs := Ok([]), posList[0].chunk, 0, [];
    for index := 1 to |posList|
      invariant r.Ok? && ScannedUpTo(t, p, posList, index, chunk, start, r.value, runs)
    {
      if posList[index].chunk != chunk {
        r := ScanNextRun(t, p, posList, chunk, start, index, r.value);
        if r.Err? {
          return;
        }
        runs := runs + [Run(chunk, start, index)];
        start := index;
        chunk := posList[index].chunk;
      }
    }
  }

  /** The scan of a reference segment. It cuts the list into runs of equal chunk ids, whatever the
      order of the list, and equals the pointwise filter. It fails exactly when some position leads
      to another reference segment. The ghost result records the runs that were scanned. */
  method ScanReferenceSegment(t: Table, p: Predicate, posList: seq<RowID>)
      returns (r: Result<seq<RowID>>, ghost runs: seq<Run>)
    requires |posList| < SIZE_T
    requires forall i :: 0 <= i < |posList| ==> Addressable(t, p.column, posList[i])
    ensures r.Err? <==> exists i :: 0 <= i < |posList| && Unsupported(t, p.column, posList[i])
    ensures r.Ok? ==> r.value == Select(t, p, posList)
    ensures r.Ok? ==> runs == Runs(posList)
  {
    if posList == [] {
      return Ok([]), [];
    }
    var chunk, start;
    r, chunk, start, runs := ScanRuns(t, p, posList);
    if r.Ok? {
      r := ScanNextRun(t, p, posList, chunk, start, |posList|, r.value);
      assert posList[..|posList|] == posList;
      runs := runs + [Run(chunk, start, |posList|)];
    }
  }

  /** The scan of one segment of a chunk, by its kind. For a reference segment the chunk id is
      ignored and the positions of the referenced table are returned. */
  method ScanSegment(op: ScanType, chunk: nat, segment: Segment, cmp: Value) returns (r: Result<seq<RowID>>)
    requires !segment.Reference? ==> DataSegment(segment)
    requires segment.Reference? ==> |segment.posList| < SIZE_T
    requires segment.Reference? ==>
      forall i :: 0 <= i < |segment.posList| ==> Addressable(segment.table, segment.column, segment.posList[i])
    ensures !segment.Reference? ==>
      r == Ok(Matching(segment, op, cmp, chunk, Continuous, 0, Size(segment)))
    ensures segment.Reference? ==>
      (r.Err? <==>
        exists i :: 0 <= i < |segment.posList| && Unsupported(segment.table, segment.column, segment.posList[i]))
    ensures segment.Reference? && r.Ok? ==>
      r.value == Select(segment.table, Predicate(segment.column, op, cmp), segment.posList)
  {
    match segment
    case Reference(table, column, posList) =>
      ghost var runs;
      r, runs := ScanReferenceSegment(table, Predicate(column, op, cmp), posList);
    case Values(values) =>
      var fetcher := new IndexFetcher(0, |values|, Continuous);
      var found := ScanValueSegment(op, chunk, values, cmp, fetcher);
      r := Ok(found);
    case Dictionary(encoded) =>
      var fetcher := new IndexFetcher(0, encoded.Size(), Continuous);
      var found := ScanDictionarySegment(op, chunk, encoded, cmp, fetcher);
      r := Ok(found);
  }
}
