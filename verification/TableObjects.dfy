/** The mutable objects behind a table: value segments that grow in place, chunks that share them, and
    the table whose current chunk is shared with its chunk list. Every object carries its abstract
    value, and every method is proved against the state machine of TableRuns. */
module TableObjects {
  import opened Values
  import opened Wrappers
  import opened Dictionaries
  import opened Storage
  import opened TableRuns

  class ValueSegment {
    var values: seq<Value>

    constructor ()
      ensures values == []
    {
      values := [];
    }

    method Append(v: Value)
      modifies this
      ensures values == old(values) + [v]
    {
      values := values + [v];
    }
  }

  /** A shared pointer to a segment: value segments are objects, dictionary and reference segments
      never change and are values. */
  datatype SegmentRef = Shared(obj: ValueSegment) | Fixed(segment: Segment)

  /** No value segment appears twice. */
  ghost predicate HeldOnce(segments: seq<SegmentRef>) {
    forall i, j :: 0 <= i < j < |segments| && segments[i].Shared? ==> segments[i] != segments[j]
  }

  lemma HeldOnceSnoc(segments: seq<SegmentRef>, s: SegmentRef)
    ensures HeldOnce(segments + [s]) <==> HeldOnce(segments) && (s.Shared? ==> s !in segments)
  {
    var all := segments + [s];
    assert forall i :: 0 <= i < |segments| ==> all[i] == segments[i];
    if s.Shared? && s in segments {
      var i :| 0 <= i < |segments| && segments[i] == s;
      assert all[i] == all[|segments|];
    }
  }

  class MutableChunk {
    var segments: seq<SegmentRef>
    ghost var data: Chunk
    ghost var objects: set<ValueSegment>

    ghost predicate Represents(s: SegmentRef, d: Segment)
      reads objects, this
    {
      match s
      case Shared(o) => o in objects && d == Storage.Values(o.values)
      case Fixed(segment) => d == segment && !segment.Values?
    }

    /** The segments have the contents `data` says. */
    ghost predicate Valid()
      reads this, objects
    {
      && |data.segments| == |segments|
      && forall k :: 0 <= k < |segments| ==> Represents(segments[k], data.segments[k])
    }

    /** No value segment is held twice. */
    ghost predicate Distinct()
      reads this
    {
      HeldOnce(segments)
    }

    constructor ()
      ensures Valid() && Distinct() && segments == [] && data == Chunk([]) && objects == {}
    {
      segments, data, objects := [], Chunk([]), {};
    }

    /** Takes over the segments of another chunk (`Chunk(Chunk&&)`). */
    constructor Move(chunk: MutableChunk)
      requires chunk.Valid()
      ensures Valid() && data == chunk.data && objects == chunk.objects && segments == chunk.segments
    {
      segments, data, objects := chunk.segments, chunk.data, chunk.objects;
    }

    /** A segment of value-segment or other kind is added to the right, even one the chunk holds already. */
    method AddSegment(segment: SegmentRef)
      requires Valid()
      requires segment.Fixed? ==> !segment.segment.Values?
      modifies this
      ensures Valid()
      ensures Distinct() <==> old(Distinct()) && (segment.Shared? ==> segment !in old(segments))
      ensures segment.Shared? ==>
        && data.segments == old(data).segments + [Storage.Values(segment.obj.values)]
        && objects == old(objects) + {segment.obj}
      ensures segment.Fixed? ==>
        data.segments == old(data).segments + [segment.segment] && objects == old(objects)
    {
      HeldOnceSnoc(segments, segment);
      segments := segments + [segment];
      match segment
      case Shared(o) =>
        objects := objects + {o};
        data := Chunk(data.segments + [Storage.Values(o.values)]);
      case Fixed(s) =>
        data := Chunk(data.segments + [s]);
    }

    /** `Chunk::size`. */
    function Size(): (n: nat)
      requires Valid()
      reads this, objects
      ensures n == RowCount(data)
    {
      if segments == [] then 0
      else
        assert Represents(segments[0], data.segments[0]);
        match segments[0]
        case Shared(o) => |o.values|
        case Fixed(segment) => Storage.Size(segment)
    }

    /** The contents of the chunk. */
    method Snapshot() returns (c: Chunk)
      requires Valid()
      ensures c == data
    {
      var contents: seq<Segment> := [];
      for k := 0 to |segments|
        invariant contents == data.segments[..k]
      {
        assert Represents(segments[k], data.segments[k]);
        match segments[k]
        case Shared(o) => contents := contents + [Storage.Values(o.values)];
        case Fixed(segment) => contents := contents + [segment];
      }
      assert data.segments[..|segments|] == data.segments;
      c := Chunk(contents);
    }

    /** Adds one value to every segment, from the first to the last. The first immutable segment refuses,
        and the segments before it keep their new values. A value segment that is held several times
        receives several values. */
    method Append(row: seq<Value>) returns (ok: bool)
      requires Valid() && |row| == |data.segments|
      modifies this`data, objects
      ensures Valid()
      ensures ok <==> old(AllValues(data))
      ensures Matching(old(data), segments)
      ensures data == Appended(old(data), segments, row, Growing(old(data.segments)))
      ensures data == AppendToChunk(old(data), row) <==> HeldOnceUpTo(segments, Growing(old(data.segments)))
    {
      SegmentKinds();
      ok := AppendValues(row);
      data := Appended(data, segments, row, Growing(data.segments));
      forall k | 0 <= k < |segments| ensures Represents(segments[k], data.segments[k]) {
        assert old(Represents(segments[k], data.segments[k]));
      }
      AppendedIsAppend(old(data), segments, row);
    }

    lemma SegmentKinds()
      requires Valid()
      ensures Matching(data, segments)
    {
      forall j | 0 <= j < |segments| ensures segments[j].Shared? <==> data.segments[j].Values? {
        assert Represents(segments[j], data.segments[j]);
      }
    }

    /** The loop over the segments, up to the first immutable one. */
    method AppendValues(row: seq<Value>) returns (ok: bool)
      requires Valid() && |row| == |segments| && Matching(data, segments)
      modifies objects
      ensures ok <==> AllValues(data)
      ensures forall o :: o in objects ==>
        o.values == old(o.values) + Received(segments, row, o, Growing(data.segments))
    {
      for n := 0 to |segments|
        invariant forall j :: 0 <= j < n ==> segments[j].Shared?
        invariant forall o :: o in objects ==> o.values == old(o.values) + Received(segments, row, o, n)
      {
        assert old(Represents(segments[n], data.segments[n]));
        match segments[n]
        case Fixed(_) =>
          assert Growing(data.segments) == n;
          return false;
        case Shared(o) =>
          o.Append(row[n]);
      }
      assert Growing(data.segments) == |segments|;
      ok := true;
    }
  }

  /** The values of the first `n` cells of a row that go to a value segment. */
  ghost function Received(segments: seq<SegmentRef>, row: seq<Value>, o: ValueSegment, n: nat): seq<Value>
    requires n <= |segments| == |row|
  {
    if n == 0 then []
    else Received(segments, row, o, n - 1) + if segments[n - 1] == Shared(o) then [row[n - 1]] else []
  }

  /** Value segments are those that are objects. */
  ghost predicate Matching(d: Chunk, segments: seq<SegmentRef>) {
    |d.segments| == |segments| && forall k :: 0 <= k < |segments| ==> segments[k].Shared? == d.segments[k].Values?
  }

  /** The contents after the first `n` cells of a row have been added. */
  ghost function Appended(d: Chunk, segments: seq<SegmentRef>, row: seq<Value>, n: nat): Chunk
    requires Matching(d, segments) && n <= |segments| == |row|
  {
    Chunk(seq(|segments|, k requires 0 <= k < |segments| =>
      if segments[k].Shared?
      then Storage.Values(d.segments[k].values + Received(segments, row, segments[k].obj, n))
      else d.segments[k]))
  }

  lemma {:induction false} ReceivedOnce(segments: seq<SegmentRef>, row: seq<Value>, k: nat, n: nat)
    requires k < |segments| && n <= |segments| == |row| && segments[k].Shared?
    requires forall i :: 0 <= i < n && i != k ==> segments[i] != segments[k]
    ensures Received(segments, row, segments[k].obj, n) == if k < n then [row[k]] else []
  {
    if n > 0 {
      ReceivedOnce(segments, row, k, n - 1);
      assert n - 1 != k ==> segments[n - 1] != segments[k];
    }
  }

  lemma {:induction false} ReceivedSome(segments: seq<SegmentRef>, row: seq<Value>, i: nat, j: nat, n: nat)
    requires i < j < |segments| && i < n <= |segments| == |row|
    requires segments[i].Shared? && segments[i] == segments[j]
    ensures |Received(segments, row, segments[i].obj, n)| >= if j < n then 2 else 1
  {
    if i < n - 1 {
      ReceivedSome(segments, row, i, j, n - 1);
    }
  }

  /** None of the first `n` segments is held again further right. */
  ghost predicate HeldOnceUpTo(segments: seq<SegmentRef>, n: nat) {
    forall i, j :: 0 <= i < j < |segments| && i < n && segments[i].Shared? ==> segments[i] != segments[j]
  }

  /** Each segment receives just its own cell of the row exactly when none that grows is held twice. */
  lemma AppendedIsAppend(d: Chunk, segments: seq<SegmentRef>, row: seq<Value>)
    requires Matching(d, segments) && |row| == |segments|
    ensures Appended(d, segments, row, Growing(d.segments)) == AppendToChunk(d, row)
       <==> HeldOnceUpTo(segments, Growing(d.segments))
  {
    var n := Growing(d.segments);
    var shared, single := Appended(d, segments, row, n), AppendToChunk(d, row);
    if HeldOnceUpTo(segments, n) {
      forall k | 0 <= k < |segments| ensures shared.segments[k] == single.segments[k] {
        if segments[k].Shared? {
          ReceivedOnce(segments, row, k, n);
        }
      }
      assert shared.segments == single.segments;
    } else {
      var i, j :| 0 <= i < j < |segments| && i < n && segments[i].Shared? && segments[i] == segments[j];
      ReceivedSome(segments, row, i, j, n);
      assert |shared.segments[j].values| > |single.segments[j].values|;
    }
  }

  /** A chunk of empty value segments. */
  method NewValueChunk(width: nat) returns (c: MutableChunk)
    ensures fresh(c) && fresh(c.objects) && c.Valid() && c.Distinct()
    ensures c.data == EmptyChunk(width)
  {
    c := new MutableChunk();
    for k := 0 to width
      invariant c.Valid() && c.Distinct() && fresh(c.objects) && |c.data.segments| == k
      invariant forall j :: 0 <= j < k ==> c.data.segments[j] == Storage.Values([])
    {
      var segment := new ValueSegment();
      c.AddSegment(Shared(segment));
    }
    assert c.data.segments == EmptyChunk(width).segments;
  }

  /** A value segment filled value by value. */
  method NewValueSegment(values: seq<Value>) returns (s: ValueSegment)
    ensures fresh(s) && s.values == values
  {
    s := new ValueSegment();
    for k := 0 to |values|
      invariant s.values == values[..k]
    {
      s.Append(values[k]);
    }
    assert values[..|values|] == values;
  }

  /** A chunk with the given contents that shares nothing with any other. */
  method NewChunk(c: Chunk) returns (chunk: MutableChunk)
    ensures fresh(chunk) && fresh(chunk.objects) && chunk.Valid() && chunk.Distinct()
    ensures chunk.data == c
  {
    chunk := new MutableChunk();
    for k := 0 to |c.segments|
      invariant chunk.Valid() && chunk.Distinct() && fresh(chunk.objects) && chunk.data.segments == c.segments[..k]
    {
      match c.segments[k]
      case Values(values) =>
        var segment := NewValueSegment(values);
        chunk.AddSegment(Shared(segment));
      case _ =>
        chunk.AddSegment(Fixed(c.segments[k]));
    }
    assert c.segments[..|c.segments|] == c.segments;
  }

  /** The first `k` segments of `d` are the encodings of those of `c`. */
  ghost predicate EncodedUpTo(c: Chunk, d: Chunk, k: nat) {
    && k == |d.segments| <= |c.segments|
    && forall j :: 0 <= j < k ==> IsEncoding(c.segments[j], d.segments[j])
  }

  ghost predicate IsEncoding(s: Segment, d: Segment) {
    s.Values? && |Distinct(s.values)| <= MAX_UINT32 && d == Dictionary(Encode(s.values))
  }

  lemma EncodedChunk(c: Chunk, d: Chunk)
    requires EncodedUpTo(c, d, |c.segments|)
    ensures Encodable(c) && d == CompressedChunk(c)
  {
    forall j | 0 <= j < |c.segments| ensures c.segments[j].Values? && |Distinct(c.segments[j].values)| <= MAX_UINT32 {
      assert IsEncoding(c.segments[j], d.segments[j]);
    }
    forall j | 0 <= j < |c.segments| ensures d.segments[j] == CompressedChunk(c).segments[j] {
      assert IsEncoding(c.segments[j], d.segments[j]);
    }
    assert d.segments == CompressedChunk(c).segments;
  }

  /** Adds the encoding of a value segment to a chunk. */
  method AddEncoded(c: MutableChunk, values: seq<Value>) returns (r: Result<()>)
    requires c.Valid() && c.Distinct() && c.objects == {}
    modifies c
    ensures c.Valid() && c.Distinct() && c.objects == {}
    ensures r.Ok? <==> |Distinct(values)| <= MAX_UINT32
    ensures r.Ok? ==> c.data == Chunk(old(c.data.segments) + [Dictionary(Encode(values))])
  {
    var encoded := EncodeSegment(values);
    match encoded
    case Err(message) =>
      r := Err(message);
    case Ok(segment) =>
      c.AddSegment(Fixed(Dictionary(segment)));
      r := Ok(());
  }

  /** The dictionary-encoded copy of a chunk of value segments. */
  method Compressed(chunk: MutableChunk) returns (r: Result<MutableChunk>)
    requires chunk.Valid() && AllValues(chunk.data)
    ensures r.Ok? <==> Encodable(chunk.data)
    ensures r.Ok? ==> fresh(r.value) && r.value.Valid() && r.value.Distinct() && r.value.objects == {}
    ensures r.Ok? ==> r.value.data == CompressedChunk(chunk.data)
  {
    var c := new MutableChunk();
    for k := 0 to |chunk.segments|
      invariant fresh(c) && c.Valid() && c.Distinct() && c.objects == {}
      invariant EncodedUpTo(chunk.data, c.data, k)
    {
      assert chunk.Represents(chunk.segments[k], chunk.data.segments[k]);
      var added := AddEncoded(c, chunk.segments[k].obj.values);
      if added.Err? {
        return Err(added.message);
      }
    }
    EncodedChunk(chunk.data, c.data);
    r := Ok(c);
  }

  class MutableTable {
    const chunkSize: nat
    var currentChunk: MutableChunk
    var chunks: seq<MutableChunk>
    var columns: seq<Column>
    /** The state of the table in the state machine. */
    ghost var state: TableState
    ghost var Repr: set<object>

    ghost predicate Owns(c: MutableChunk)
      reads this, Repr
    {
      c in Repr && c.objects <= Repr && c.Valid() && c.Distinct()
    }

    /** The k-th entry of the list holds what the state says. */
    ghost predicate Listed(k: nat)
      requires k < |chunks| == |state.table.chunks|
      reads this, Repr
    {
      Owns(chunks[k]) && chunks[k].data == state.table.chunks[k]
    }

    /** Two entries are distinct objects without a common segment. */
    ghost predicate Separate(k: nat, m: nat)
      requires k < |chunks| && m < |chunks|
      reads this, Repr
    {
      chunks[k] in Repr && chunks[m] in Repr && chunks[k] != chunks[m] && chunks[k].objects !! chunks[m].objects
    }

    /** The k-th entry is not the current chunk and shares no segment with it. */
    ghost predicate Apart(k: nat)
      requires k < |chunks|
      reads this, Repr
    {
      && chunks[k] in Repr && currentChunk in Repr
      && chunks[k] != currentChunk && chunks[k].objects !! currentChunk.objects
    }

    /** Chunks are distinct objects that share no segment and hold what the state says; the current
        chunk is the entry the state names, or detached from the list. */
    ghost predicate Valid()
      reads this, Repr
    {
      && this in Repr
      && state.table.chunkSize == chunkSize && state.table.columns == columns
      && |state.table.chunks| == |chunks| > 0
      && Owns(currentChunk)
      && (forall k :: 0 <= k < |chunks| ==> Listed(k))
      && (forall k, m :: 0 <= k < m < |chunks| ==> Separate(k, m))
      && match state.current
         case Attached(i) => i < |chunks| && chunks[i] == currentChunk
         case Detached(c) => c == currentChunk.data && forall k :: 0 <= k < |chunks| ==> Apart(k)
    }

    /** Whatever the table has come to own since is new. */
    twostate predicate Grew()
      reads this
    {
      forall o :: o in Repr ==> o in old(Repr) || fresh(o)
    }

    /** The current chunk of the state is the content of the current chunk object. */
    lemma CurrentData()
      requires Valid()
      ensures state.WellIndexed() && state.CurrentChunk() == currentChunk.data
    {
      if state.current.Attached? {
        assert Listed(state.current.index);
      }
    }

    constructor (chunkSize: nat)
      ensures Valid() && fresh(Repr)
      ensures this.chunkSize == chunkSize && columns == []
      ensures state == Init(chunkSize, [])
    {
      this.chunkSize := chunkSize;
      var c := new MutableChunk();
      currentChunk := c;
      chunks := [c];
      columns := [];
      state := Init(chunkSize, []);
      Repr := {this, c};
      new;
      assert Listed(0);
    }

    /** `row_count`: the sum of the chunk sizes. */
    method RowCount() returns (rows: nat)
      requires Valid()
      ensures rows == TotalRows(state.table.chunks)
    {
      rows := 0;
      ghost var data := state.table.chunks;
      for k := 0 to |chunks|
        invariant rows == TotalRows(data[..k])
      {
        assert data[..k + 1][..k] == data[..k];
        assert Listed(k);
        rows := rows + chunks[k].Size();
      }
      assert data[..|chunks|] == data;
    }

    method AddColumnDefinition(name: string, typ: string)
      requires Valid()
      requires TotalRows(state.table.chunks) == 0 && |columns| < MAX_UINT16
      modifies `columns, `state
      ensures Valid()
      ensures columns == old(columns) + [Column(name, typ)]
      ensures state == old(state).(table := old(state.table).(columns := columns))
    {
      columns := columns + [Column(name, typ)];
      state := state.(table := state.table.(columns := columns));
      forall k | 0 <= k < |chunks| ensures Listed(k) {
        assert old(Listed(k));
      }
      forall k, m | 0 <= k < m < |chunks| ensures Separate(k, m) {
        assert old(Separate(k, m));
      }
      forall k | 0 <= k < |chunks| && state.current.Detached? ensures Apart(k) {
        assert old(Apart(k));
      }
    }

    /** `add_column`: the new segment goes to the current chunk. */
    method AddColumn(name: string, typ: string)
      requires Valid() && state.WellIndexed()
      requires TotalRows(state.table.chunks) == 0 && |columns| < MAX_UINT16
      modifies this, currentChunk
      ensures Valid() && fresh(Repr - old(Repr))
      ensures columns == old(columns) + [Column(name, typ)]
      ensures state == TableRuns.AddColumn(old(state), Column(name, typ))
    {
      CurrentData();
      AddColumnDefinition(name, typ);
      var segment := new ValueSegment();
      AddToCurrent(segment);
    }

    method AddToCurrent(segment: ValueSegment)
      requires Valid() && state.WellIndexed() && segment !in Repr && segment.values == []
      modifies `Repr, `state, currentChunk
      ensures Valid() && Repr == old(Repr) + {segment}
      ensures state == WithCurrent(old(state), Chunk(old(currentChunk.data).segments + [Storage.Values([])]))
    {
      currentChunk.AddSegment(Shared(segment));
      Repr := Repr + {segment};
      state := WithCurrent(state, currentChunk.data);
      OthersUnchanged();
    }

    /** When of all chunks and segments only the current chunk and its segments have changed, and at most a
        new segment object has been added to it, the table follows the state with the new current chunk. */
    twostate lemma OthersUnchanged()
      requires old(Valid()) && old(state.WellIndexed())
      requires chunks == old(chunks) && currentChunk == old(currentChunk) && columns == old(columns)
      requires old(Repr) <= Repr && currentChunk.Valid() && currentChunk.Distinct() && currentChunk.objects <= Repr
      requires currentChunk.objects * old(Repr) <= old(currentChunk.objects)
      requires state == WithCurrent(old(state), currentChunk.data)
      requires forall k :: 0 <= k < |chunks| && chunks[k] != currentChunk ==> unchanged(chunks[k])
      requires forall k :: 0 <= k < |chunks| && chunks[k] != currentChunk ==> unchanged(chunks[k].objects)
      ensures Valid()
    {
      forall k | 0 <= k < |chunks| ensures Listed(k) {
        assert old(Listed(k));
        if state.current.Attached? {
          var i := state.current.index;
          assert k < i ==> old(Separate(k, i));
          assert i < k ==> old(Separate(i, k));
        } else {
          assert old(Apart(k));
        }
      }
      forall k, m | 0 <= k < m < |chunks| ensures Separate(k, m) {
        assert old(Separate(k, m)) && old(Listed(k)) && old(Listed(m));
      }
      forall k | 0 <= k < |chunks| && state.current.Detached? ensures Apart(k) {
        assert old(Apart(k)) && old(Listed(k));
      }
    }

    method CreateNewChunk()
      requires Valid()
      modifies this
      ensures Valid() && fresh(Repr - old(Repr))
      ensures fresh(currentChunk) && fresh(currentChunk.objects)
      ensures columns == old(columns)
      ensures state == TableRuns.CreateNewChunk(old(state))
    {
      var chunk := NewValueChunk(|columns|);
      PushChunk(chunk);
    }

    /** Adds a chunk that shares nothing with the table at the end and makes it the current one. */
    method PushChunk(chunk: MutableChunk)
      requires Valid()
      requires chunk.Valid() && chunk.Distinct() && chunk !in Repr && chunk.objects !! Repr
      modifies this
      ensures Valid() && Repr == old(Repr) + {chunk} + chunk.objects
      ensures currentChunk == chunk && columns == old(columns)
      ensures state.table == old(state.table).(chunks := old(state.table.chunks) + [chunk.data])
      ensures state.current == Attached(|old(state.table.chunks)|)
    {
      currentChunk := chunk;
      chunks := chunks + [chunk];
      Repr := Repr + {chunk} + chunk.objects;
      state := TableState(state.table.(chunks := state.table.chunks + [chunk.data]), Attached(|chunks| - 1));
      forall k | 0 <= k < |chunks| ensures Listed(k) {
        assert k < |chunks| - 1 ==> old(Listed(k));
      }
      forall k, m | 0 <= k < m < |chunks| ensures Separate(k, m) {
        assert old(Listed(k)) && (m < |chunks| - 1 ==> old(Separate(k, m)));
      }
    }

    /** Replaces one entry of the list by a chunk that shares nothing with the table. */
    method ReplaceChunk(id: nat, chunk: MutableChunk)
      requires Valid() && id < |chunks|
      requires chunk.Valid() && chunk.Distinct() && chunk !in Repr && chunk.objects !! Repr
      modifies `chunks, `Repr, `state
      ensures Valid() && Repr == old(Repr) + {chunk} + chunk.objects
      ensures chunks == old(chunks)[id := chunk]
      ensures state.table == old(state.table).(chunks := old(state.table.chunks)[id := chunk.data])
      ensures state.current ==
        if old(state.current) == Attached(id) then Detached(currentChunk.data) else old(state.current)
    {
      chunks := chunks[id := chunk];
      Repr := Repr + {chunk} + chunk.objects;
      state := TableState(
        state.table.(chunks := state.table.chunks[id := chunk.data]),
        if state.current == Attached(id) then Detached(currentChunk.data) else state.current);
      forall k | 0 <= k < |chunks| ensures Listed(k) {
        assert old(Listed(k));
      }
      forall k, m | 0 <= k < m < |chunks| ensures Separate(k, m) {
        assert old(Separate(k, m)) && old(Listed(k)) && old(Listed(m));
      }
      forall k | 0 <= k < |chunks| && state.current.Detached? ensures Apart(k) {
        assert old(state.current).Detached? ==> old(Apart(k));
        assert k < id ==> old(Separate(k, id));
        assert id < k ==> old(Separate(id, k));
      }
    }

    /** Makes a chunk that shares nothing with the table its first entry and the current one. */
    method ReplaceFirst(chunk: MutableChunk)
      requires Valid()
      requires chunk.Valid() && chunk.Distinct() && chunk !in Repr && chunk.objects !! Repr
      modifies this
      ensures Valid() && Repr == old(Repr) + {chunk} + chunk.objects
      ensures currentChunk == chunk && columns == old(columns)
      ensures state == TableState(old(state.table).(chunks := old(state.table.chunks)[0 := chunk.data]), Attached(0))
    {
      currentChunk := chunk;
      chunks := chunks[0 := chunk];
      Repr := Repr + {chunk} + chunk.objects;
      state := TableState(state.table.(chunks := state.table.chunks[0 := chunk.data]), Attached(0));
      forall k | 0 <= k < |chunks| ensures Listed(k) {
        assert old(Listed(k));
      }
      forall k, m | 0 <= k < m < |chunks| ensures Separate(k, m) {
        assert old(Separate(k, m)) && old(Listed(m));
      }
    }

    /** `append`: a full current chunk is replaced first, then the row goes to the current chunk, be it
        in the list or detached. An immutable segment refuses it. */
    method Append(row: seq<Value>) returns (ok: bool)
      requires Valid() && state.WellIndexed()
      requires |row| == |ReadyToAppend(state).CurrentChunk().segments|
      modifies this, currentChunk`data, currentChunk.objects
      ensures Valid() && fresh(Repr - old(Repr)) && columns == old(columns)
      ensures ok <==> Accepts(ReadyToAppend(old(state)).CurrentChunk(), row)
      ensures state == TableRuns.Append(old(state), row)
    {
      CurrentData();
      if currentChunk.Size() == chunkSize {
        CreateNewChunk();
        CurrentData();
      }
      ok := WriteCurrent(row);
    }

    method WriteCurrent(row: seq<Value>) returns (ok: bool)
      requires Valid() && state.WellIndexed()
      requires |row| == |currentChunk.data.segments|
      modifies `state, currentChunk`data, currentChunk.objects
      ensures Valid()
      ensures ok <==> Accepts(old(currentChunk.data), row)
      ensures state == WithCurrent(old(state), AppendToChunk(old(currentChunk.data), row))
    {
      SegmentsApart();
      ok := currentChunk.Append(row);
      state := WithCurrent(state, currentChunk.data);
      OthersUnchanged();
    }

    /** Writing to the segments of the current chunk reaches no other entry. */
    lemma SegmentsApart()
      requires Valid()
      ensures forall k :: 0 <= k < |chunks| && chunks[k] != currentChunk ==> chunks[k].objects !! currentChunk.objects
    {
      forall k | 0 <= k < |chunks| && chunks[k] != currentChunk ensures chunks[k].objects !! currentChunk.objects {
        if state.current.Attached? {
          var i := state.current.index;
          assert k < i ==> Separate(k, i);
          assert i < k ==> Separate(i, k);
        } else {
          assert Apart(k);
        }
      }
    }

    /** `emplace_chunk`: the chunk's segments move into a new current chunk, which replaces the first
        entry of a table without rows and is added at the end otherwise. */
    method EmplaceChunk(chunk: MutableChunk)
      requires Valid() && chunk.Valid() && chunk.Distinct() && chunk.objects !! Repr
      requires chunk.Size() <= chunkSize
      requires TotalRows(state.table.chunks) != 0 ==> |chunk.segments| == |columns|
      modifies this
      ensures Valid() && fresh(Repr - old(Repr) - chunk.objects)
      ensures columns == old(columns)
      ensures state == TableRuns.EmplaceChunk(old(state), chunk.data)
    {
      var rows := RowCount();
      var moved := new MutableChunk.Move(chunk);
      if rows == 0 {
        ReplaceFirst(moved);
      } else {
        PushChunk(moved);
      }
    }

    /** `compress_chunk`: only the list entry is replaced; a current chunk stays where it was. */
    method CompressChunk(id: nat) returns (r: Result<()>)
      requires Valid() && id < |chunks|
      requires Storage.RowCount(state.table.chunks[id]) == chunkSize && AllValues(state.table.chunks[id])
      modifies this
      ensures Valid() && fresh(Repr - old(Repr)) && columns == old(columns)
      ensures r.Ok? <==> Encodable(old(state.table.chunks)[id])
      ensures r.Ok? ==> state == TableRuns.CompressChunk(old(state), id)
      ensures r.Err? ==> state == old(state)
    {
      assert Listed(id);
      var compressed := Compressed(chunks[id]);
      if compressed.Err? {
        return Err(compressed.message);
      }
      ReplaceChunk(id, compressed.value);
      r := Ok(());
    }

    /** The contents of the table, as its readers see them. */
    method Snapshot() returns (t: Table)
      requires Valid()
      ensures t == state.table
    {
      var contents: seq<Chunk> := [];
      for k := 0 to |chunks|
        invariant contents == state.table.chunks[..k]
      {
        assert Listed(k);
        var c := chunks[k].Snapshot();
        contents := contents + [c];
      }
      assert state.table.chunks[..|chunks|] == state.table.chunks;
      t := Table(chunkSize, columns, contents);
    }

    /** One operation of a run. */
    method Perform(op: Op)
      requires Valid() && Inv(state) && Enabled(state, op)
      modifies Repr
      ensures Valid() && Grew()
      ensures state == Step(old(state), op)
    {
      match op
      case AppendOp(row) =>
        var ok := Append(row);
      case CreateOp =>
        CreateNewChunk();
      case EmplaceOp(c) =>
        var chunk := NewChunk(c);
        EmplaceChunk(chunk);
      case CompressOp(id) =>
        FittingChunkEncodable(state.table.chunks[id]);
        var r := CompressChunk(id);
    }

    /** A sequence of operations on the objects is a run of the state machine. */
    method PerformAll(ops: seq<Op>)
      requires Valid() && Inv(state) && EnabledRun(state, ops)
      modifies Repr
      ensures Valid() && Grew()
      ensures state == Run(old(state), ops)
    {
      for n := 0 to |ops|
        invariant Valid() && Grew()
        invariant Inv(state) && EnabledRun(state, ops[n..]) && Run(old(state), ops) == Run(state, ops[n..])
      {
        StepAddsRows(state, ops[n]);
        assert ops[n..][1..] == ops[n + 1..];
        Perform(ops[n]);
      }
    }
  }
}
