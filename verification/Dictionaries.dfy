/** Dictionary compression of one segment: sorting and deduplicating the values, choosing the width
    of the value ids, and looking up bounds. */
module Dictionaries {
  import opened Values
  import opened Wrappers

  const MAX_UINT8: nat := 0xFF
  const MAX_UINT16: nat := 0xFFFF
  const MAX_UINT32: nat := 0xFFFF_FFFF

  /** Returned by the bound look-ups when every dictionary entry lies on the other side. */
  const INVALID_VALUE_ID: nat := MAX_UINT32

  // ---------------------------------------------------------------------------------------------
  // Ordered sequences
  // ---------------------------------------------------------------------------------------------

  ghost predicate Sorted(s: seq<Value>) {
    forall i, j :: 0 <= i < j < |s| ==> !Less(s[j], s[i])
  }

  ghost predicate StrictlyIncreasing(s: seq<Value>) {
    forall i, j :: 0 <= i < j < |s| ==> Less(s[i], s[j])
  }

  ghost predicate SameElements(a: seq<Value>, b: seq<Value>) {
    forall x :: x in a <==> x in b
  }

  /** In a strictly increasing sequence a value occurs at one index only. */
  lemma StrictlyIncreasingInjective(s: seq<Value>, i: nat, j: nat)
    requires StrictlyIncreasing(s) && i < |s| && j < |s|
    ensures s[i] == s[j] <==> i == j
  {
    LessTrichotomy(s[i], s[j]);
  }

  lemma SmallestIsFirst(a: seq<Value>, b: seq<Value>)
    requires StrictlyIncreasing(a) && StrictlyIncreasing(b) && SameElements(a, b)
    requires a != [] && b != []
    ensures a[0] == b[0]
  {
    assert a[0] in b && b[0] in a;
    LessTrichotomy(a[0], b[0]);
  }

  /** A set of values has only one strictly increasing listing. */
  lemma {:induction false} StrictlyIncreasingUnique(a: seq<Value>, b: seq<Value>)
    requires StrictlyIncreasing(a) && StrictlyIncreasing(b) && SameElements(a, b)
    ensures a == b
  {
    assert b != [] ==> b[0] in a;
    if a != [] {
      assert a[0] in b;
      SmallestIsFirst(a, b);
      forall x ensures x in a[1..] <==> x in b[1..] {
        TailElements(a, x);
        TailElements(b, x);
      }
      StrictlyIncreasingUnique(a[1..], b[1..]);
      assert a == [a[0]] + a[1..] && b == [b[0]] + b[1..];
    }
  }

  lemma TailElements(a: seq<Value>, x: Value)
    requires StrictlyIncreasing(a) && a != []
    ensures x in a[1..] <==> x in a && x != a[0]
  {
    forall i | 1 <= i < |a| ensures a[i] != a[0] {
      StrictlyIncreasingInjective(a, 0, i);
    }
    if x in a && x != a[0] {
      var i :| 0 <= i < |a| && a[i] == x;
      assert a[1..][i - 1] == x;
    }
  }

  // ---------------------------------------------------------------------------------------------
  // The reference dictionary
  // ---------------------------------------------------------------------------------------------

  /** Adds `v` to a strictly increasing sequence unless it is already there. */
  function Insert(d: seq<Value>, v: Value): (r: seq<Value>) {
    if d == [] || Less(v, d[0]) then [v] + d
    else if d[0] == v then d
    else [d[0]] + Insert(d[1..], v)
  }

  /** The distinct values of a segment in increasing order, one insertion at a time. */
  function Distinct(values: seq<Value>): (r: seq<Value>) {
    if values == [] then [] else Insert(Distinct(values[..|values| - 1]), values[|values| - 1])
  }

  lemma {:induction false} InsertElements(d: seq<Value>, v: Value)
    ensures forall x :: x in Insert(d, v) <==> x in d || x == v
  {
    if !(d == [] || Less(v, d[0])) && d[0] != v {
      InsertElements(d[1..], v);
      assert d == [d[0]] + d[1..];
    }
  }

  lemma {:induction false} InsertIncreasing(d: seq<Value>, v: Value)
    requires StrictlyIncreasing(d)
    ensures StrictlyIncreasing(Insert(d, v))
  {
    if d == [] {
    } else if Less(v, d[0]) {
      var r := [v] + d;
      forall j | 1 <= j < |r| ensures Less(v, r[j]) {
        if j > 1 {
          LessTransitive(v, d[0], d[j - 1]);
        }
      }
    } else if d[0] != v {
      InsertIncreasing(d[1..], v);
      InsertElements(d[1..], v);
      LessTrichotomy(v, d[0]);
      var tail := Insert(d[1..], v);
      forall j | 0 <= j < |tail| ensures Less(d[0], tail[j]) {
        assert tail[j] in tail;
      }
    }
  }

  /** The dictionary is strictly increasing, holds exactly the values of the segment and is no
      longer than the segment. */
  lemma {:induction false} DistinctIsDictionary(values: seq<Value>)
    ensures StrictlyIncreasing(Distinct(values))
    ensures SameElements(Distinct(values), values)
    ensures |Distinct(values)| <= |values|
  {
    if values != [] {
      var init, last := values[..|values| - 1], values[|values| - 1];
      DistinctIsDictionary(init);
      InsertIncreasing(Distinct(init), last);
      InsertElements(Distinct(init), last);
      InsertLength(Distinct(init), last);
      assert values == init + [last];
    }
  }

  lemma {:induction false} InsertLength(d: seq<Value>, v: Value)
    ensures |d| <= |Insert(d, v)| <= |d| + 1
    ensures StrictlyIncreasing(d) ==> (|Insert(d, v)| == |d| <==> v in d)
  {
    if !(d == [] || Less(v, d[0])) && d[0] != v {
      InsertLength(d[1..], v);
      assert d == [d[0]] + d[1..];
    } else if d != [] && Less(v, d[0]) {
      if StrictlyIncreasing(d) {
        forall i | 0 <= i < |d| ensures d[i] != v {
          if i > 0 {
            LessTransitive(v, d[0], d[i]);
          }
          LessTrichotomy(v, d[i]);
        }
      }
    }
  }

  // ---------------------------------------------------------------------------------------------
  // The library algorithms used to build the dictionary
  // ---------------------------------------------------------------------------------------------

  /** `std::sort`: section 28.7.1.1 of ISO/IEC 14882:2017. */
  method Sort(values: seq<Value>) returns (sorted: seq<Value>)
    ensures Sorted(sorted)
    ensures multiset(sorted) == multiset(values)
  {
    sorted := [];
    for n := 0 to |values|
      invariant Sorted(sorted)
      invariant multiset(sorted) == multiset(values[..n])
    {
      var k := InsertionPoint(sorted, values[n]);
      InsertionKeepsSorted(sorted, k, values[n]);
      InsertionAddsElement(sorted, k, values[n]);
      assert values[..n + 1] == values[..n] + [values[n]];
      sorted := sorted[..k] + [values[n]] + sorted[k..];
    }
    assert values[..|values|] == values;
  }

  method InsertionPoint(s: seq<Value>, v: Value) returns (k: nat)
    requires Sorted(s)
    ensures k <= |s|
    ensures k > 0 ==> !Less(v, s[k - 1])
    ensures forall j :: k <= j < |s| ==> Less(v, s[j])
  {
    k := |s|;
    while k > 0 && Less(v, s[k - 1])
      invariant k <= |s|
      invariant forall j :: k <= j < |s| ==> Less(v, s[j])
    {
      k := k - 1;
    }
  }

  lemma InsertionAddsElement(s: seq<Value>, k: nat, v: Value)
    requires k <= |s|
    ensures multiset(s[..k] + [v] + s[k..]) == multiset(s) + multiset{v}
  {
    assert s == s[..k] + s[k..];
  }

  lemma InsertionKeepsSorted(s: seq<Value>, k: nat, v: Value)
    requires Sorted(s) && k <= |s|
    requires k > 0 ==> !Less(v, s[k - 1])
    requires forall j :: k <= j < |s| ==> Less(v, s[j])
    ensures Sorted(s[..k] + [v] + s[k..])
  {
    var r := s[..k] + [v] + s[k..];
    forall i, j | 0 <= i < j < |r| ensures !Less(r[j], r[i]) {
      if i == k {
        LessTrichotomy(v, s[j - 1]);
      } else if j == k {
        if i < k - 1 {
          NotLessTransitive(s[i], s[k - 1], v);
        }
      }
    }
  }

  /** All but the first element of every group of equal neighbours removed. */
  function WithoutRepeats(s: seq<Value>): (r: seq<Value>) {
    if |s| < 2 then s
    else if s[|s| - 2] == s[|s| - 1] then WithoutRepeats(s[..|s| - 1])
    else WithoutRepeats(s[..|s| - 1]) + [s[|s| - 1]]
  }

  /** `std::unique` followed by the erase: section 28.6.9 of ISO/IEC 14882:2017. */
  method Unique(s: seq<Value>) returns (r: seq<Value>)
    ensures r == WithoutRepeats(s)
  {
    r := [];
    for n := 0 to |s|
      invariant r == WithoutRepeats(s[..n])
      invariant n > 0 ==> r != [] && r[|r| - 1] == s[n - 1]
    {
      assert s[..n + 1][..n] == s[..n];
      if r == [] || r[|r| - 1] != s[n] {
        r := r + [s[n]];
      }
    }
    assert s[..|s|] == s;
  }

  /** On sorted input, removing equal neighbours leaves each value once, in increasing order. */
  lemma {:induction false} WithoutRepeatsOfSorted(s: seq<Value>)
    requires Sorted(s)
    ensures StrictlyIncreasing(WithoutRepeats(s))
    ensures SameElements(WithoutRepeats(s), s)
  {
    if |s| >= 2 {
      var init, last := s[..|s| - 1], s[|s| - 1];
      WithoutRepeatsOfSorted(init);
      assert s == init + [last];
      var r := WithoutRepeats(init);
      if init[|init| - 1] != last {
        forall i | 0 <= i < |r| ensures Less(r[i], last) {
          assert r[i] in init;
          var j :| 0 <= j < |init| && init[j] == r[i];
          LessTrichotomy(init[|init| - 1], last);
          if j < |init| - 1 {
            NotLessThenLess(init[j], init[|init| - 1], last);
          }
        }
      } else {
        assert last in init;
      }
    }
  }

  // ---------------------------------------------------------------------------------------------
  // Bounds
  // ---------------------------------------------------------------------------------------------

  /** The first index from i on whose entry is not smaller than `v`. */
  function LowerFrom(d: seq<Value>, v: Value, i: nat): (k: nat)
    requires i <= |d|
    ensures i <= k <= |d|
    ensures forall j :: i <= j < k ==> Less(d[j], v)
    ensures k < |d| ==> !Less(d[k], v)
    decreases |d| - i
  {
    if i < |d| && Less(d[i], v) then LowerFrom(d, v, i + 1) else i
  }

  /** The first index from i on whose entry is greater than `v`. */
  function UpperFrom(d: seq<Value>, v: Value, i: nat): (k: nat)
    requires i <= |d|
    ensures i <= k <= |d|
    ensures forall j :: i <= j < k ==> !Less(v, d[j])
    ensures k < |d| ==> Less(v, d[k])
    decreases |d| - i
  {
    if i < |d| && !Less(v, d[i]) then UpperFrom(d, v, i + 1) else i
  }

  function LowerIndex(d: seq<Value>, v: Value): (k: nat)
    ensures k <= |d|
  {
    LowerFrom(d, v, 0)
  }

  function UpperIndex(d: seq<Value>, v: Value): (k: nat)
    ensures k <= |d|
  {
    UpperFrom(d, v, 0)
  }

  lemma LowerIndexSplits(d: seq<Value>, v: Value, i: nat)
    requires StrictlyIncreasing(d) && i < |d|
    ensures i < LowerIndex(d, v) <==> Less(d[i], v)
  {
    var k := LowerIndex(d, v);
    if i > k && Less(d[i], v) {
      LessTransitive(d[k], d[i], v);
    }
  }

  lemma UpperIndexSplits(d: seq<Value>, v: Value, i: nat)
    requires StrictlyIncreasing(d) && i < |d|
    ensures i < UpperIndex(d, v) <==> !Less(v, d[i])
  {
    var k := UpperIndex(d, v);
    if i > k {
      LessTransitive(v, d[k], d[i]);
    }
  }

  function LowerBoundId(d: seq<Value>, v: Value): (id: nat) {
    if LowerIndex(d, v) < |d| then LowerIndex(d, v) else INVALID_VALUE_ID
  }

  function UpperBoundId(d: seq<Value>, v: Value): (id: nat) {
    if UpperIndex(d, v) < |d| then UpperIndex(d, v) else INVALID_VALUE_ID
  }

  /** The cast of an iterator distance to the 32-bit `ValueID`. */
  function ToValueID(distance: nat): (id: nat)
    ensures distance <= MAX_UINT32 ==> id == distance
  {
    distance % (MAX_UINT32 + 1)
  }

  /** `DictionarySegment::lower_bound`: the binary search of `std::lower_bound` (section 28.7.3.1 of
      ISO/IEC 14882:2017) and the sentinel for a missing bound. */
  method LowerBound(d: seq<Value>, v: Value) returns (id: nat)
    requires StrictlyIncreasing(d) && |d| <= MAX_UINT32
    ensures id == LowerBoundId(d, v)
  {
    var first, count := 0, |d|;
    while count > 0
      invariant 0 <= first <= first + count <= |d|
      invariant first <= LowerIndex(d, v) <= first + count
    {
      var step := count / 2;
      LowerIndexSplits(d, v, first + step);
      if Less(d[first + step], v) {
        first, count := first + step + 1, count - step - 1;
      } else {
        count := step;
      }
    }
    id := if first != |d| then ToValueID(first) else INVALID_VALUE_ID;
  }

  /** `DictionarySegment::upper_bound`: `std::upper_bound` is section 28.7.3.2 of
      ISO/IEC 14882:2017. */
  method UpperBound(d: seq<Value>, v: Value) returns (id: nat)
    requires StrictlyIncreasing(d) && |d| <= MAX_UINT32
    ensures id == UpperBoundId(d, v)
  {
    var first, count := 0, |d|;
    while count > 0
      invariant 0 <= first <= first + count <= |d|
      invariant first <= UpperIndex(d, v) <= first + count
    {
      var step := count / 2;
      UpperIndexSplits(d, v, first + step);
      if !Less(v, d[first + step]) {
        first, count := first + step + 1, count - step - 1;
      } else {
        count := step;
      }
    }
    id := if first != |d| then ToValueID(first) else INVALID_VALUE_ID;
  }

  /** A value of the dictionary is found at its own index. */
  lemma LowerBoundFinds(d: seq<Value>, v: Value)
    requires StrictlyIncreasing(d) && v in d
    ensures LowerBoundId(d, v) < |d| && d[LowerBoundId(d, v)] == v
  {
    var i :| 0 <= i < |d| && d[i] == v;
    LessTrichotomy(v, v);
    LowerIndexSplits(d, v, i);
    if LowerIndex(d, v) < i {
      LowerIndexSplits(d, v, LowerIndex(d, v));
    }
  }

  // ---------------------------------------------------------------------------------------------
  // Attribute vectors
  // ---------------------------------------------------------------------------------------------

  datatype Width = One | Two | Four {
    /** `sizeof` of the element type. */
    function Bytes(): nat {
      match this
      case One => 1
      case Two => 2
      case Four => 4
    }

    function Max(): nat {
      match this
      case One => MAX_UINT8
      case Two => MAX_UINT16
      case Four => MAX_UINT32
    }
  }

  /** The number of values that so many bytes can hold. */
  function Capacity(bytes: nat): nat {
    if bytes == 0 then 1 else 256 * Capacity(bytes - 1)
  }

  /** The maximum of a width is the greatest number its bytes hold. */
  lemma WidthHoldsBytes(w: Width)
    ensures w.Max() == Capacity(w.Bytes()) - 1
    ensures w.Bytes() == 1 || w.Bytes() == 2 || w.Bytes() == 4
  {
    assert Capacity(1) == 256 && Capacity(2) == 65536 && Capacity(3) == 16777216 && Capacity(4) == 4294967296;
  }

  /** The value ids of a segment, stored with a fixed width. */
  datatype AttributeVector = AttributeVector(width: Width, ids: seq<nat>) {
    ghost predicate Fits() {
      forall i :: 0 <= i < |ids| ==> ids[i] <= width.Max()
    }
  }

  /** Conversion of a 32-bit value id to the element type of the attribute vector. */
  function Narrow(w: Width, id: nat): (n: nat)
    ensures n <= w.Max()
  {
    id % (w.Max() + 1)
  }

  /** The narrowest width whose maximum is at least the number of distinct values. */
  function WidthFor(uniqueCount: nat): (w: Option<Width>)
    ensures w.None? <==> uniqueCount > MAX_UINT32
    ensures w.Some? ==> uniqueCount <= w.value.Max()
    ensures w.Some? ==> forall u: Width :: uniqueCount <= u.Max() ==> w.value.Bytes() <= u.Bytes()
  {
    if uniqueCount <= MAX_UINT8 then Some(One)
    else if uniqueCount <= MAX_UINT16 then Some(Two)
    else if uniqueCount <= MAX_UINT32 then Some(Four)
    else None
  }

  /** Narrowing loses no id of an accepted dictionary, and the stored number is neither the width's
      maximum nor the sentinel. */
  lemma WidthIsLossless(uniqueCount: nat, id: nat)
    requires WidthFor(uniqueCount).Some? && id < uniqueCount
    ensures Narrow(WidthFor(uniqueCount).value, id) == id
    ensures Narrow(WidthFor(uniqueCount).value, id) < WidthFor(uniqueCount).value.Max()
    ensures Narrow(WidthFor(uniqueCount).value, id) != INVALID_VALUE_ID
  {
    var m := WidthFor(uniqueCount).value.Max();
    assert id < m + 1;
  }

  /** `FittedAttributeVector`: the only attribute vector implementation. */
  class FittedAttributeVector {
    var vector: AttributeVector

    /** Every stored number fits the element type. */
    ghost predicate Valid()
      reads this
    {
      vector.Fits()
    }

    constructor (width: Width, ids: seq<nat>)
      requires AttributeVector(width, ids).Fits()
      ensures Valid() && vector == AttributeVector(width, ids)
    {
      vector := AttributeVector(width, ids);
    }

    function Get(offset: nat): (id: nat)
      requires Valid() && offset < Size()
      reads this
      ensures id <= vector.width.Max()
    {
      vector.ids[offset]
    }

    function Size(): nat
      reads this
    {
      |vector.ids|
    }

    function Width(): (bytes: nat)
      reads this
      ensures bytes == 1 || bytes == 2 || bytes == 4
    {
      vector.width.Bytes()
    }

    /** Writes one id through the narrowing cast; the other positions keep theirs. Reading it back
        gives the id itself exactly when it fits the width. */
    method Set(offset: nat, id: nat)
      requires Valid() && offset < Size()
      modifies this
      ensures Valid() && vector.width == old(vector.width)
      ensures vector.ids == old(vector.ids)[offset := Narrow(vector.width, id)]
      ensures Get(offset) == id <==> id <= vector.width.Max()
    {
      var stored := Narrow(vector.width, id);
      assert stored == id <==> id <= vector.width.Max();
      vector := vector.(ids := vector.ids[offset := stored]);
    }
  }

  // ---------------------------------------------------------------------------------------------
  // Dictionary segments
  // ---------------------------------------------------------------------------------------------

  datatype DictionarySegment = DictionarySegment(dictionary: seq<Value>, attributes: AttributeVector) {

    ghost predicate Valid() {
      && StrictlyIncreasing(dictionary)
      && |dictionary| <= MAX_UINT32
      && forall i :: 0 <= i < |attributes.ids| ==> attributes.ids[i] < |dictionary|
    }

    function Size(): nat {
      |attributes.ids|
    }

    /** The body of `DictionarySegment::get`, without its debug check. */
    function Get(offset: nat): Value
      requires offset < Size() && attributes.ids[offset] < |dictionary|
    {
      dictionary[attributes.ids[offset]]
    }
  }

  function IdsOf(values: seq<Value>, dictionary: seq<Value>, width: Width): (r: AttributeVector)
    ensures r.width == width && |r.ids| == |values|
    ensures forall i :: 0 <= i < |values| ==> r.ids[i] == Narrow(width, LowerBoundId(dictionary, values[i]))
  {
    AttributeVector(
      width,
      seq(|values|, i requires 0 <= i < |values| => Narrow(width, LowerBoundId(dictionary, values[i]))))
  }

  /** Reference encoding of a segment: the distinct values, and each value's index among them. */
  function Encode(values: seq<Value>): DictionarySegment
    requires |Distinct(values)| <= MAX_UINT32
  {
    DictionarySegment(Distinct(values), IdsOf(values, Distinct(values), WidthFor(|Distinct(values)|).value))
  }

  /** Decoding the id at each row offset returns the original value. */
  lemma EncodeRoundTrip(values: seq<Value>)
    requires |Distinct(values)| <= MAX_UINT32
    ensures Encode(values).Valid()
    ensures Encode(values).Size() == |values|
    ensures forall i :: 0 <= i < |values| ==> Encode(values).Get(i) == values[i]
  {
    DistinctIsDictionary(values);
    var d := Distinct(values);
    forall i | 0 <= i < |values|
      ensures Encode(values).attributes.ids[i] < |d|
      ensures d[Encode(values).attributes.ids[i]] == values[i]
    {
      assert values[i] in values;
      LowerBoundFinds(d, values[i]);
      WidthIsLossless(|d|, LowerBoundId(d, values[i]));
    }
  }

  /** The constructor of `DictionarySegment`: sort, remove repeats, choose a width, look every value
      up. It computes the reference encoding, and fails exactly when no width holds the ids. */
  method EncodeSegment(values: seq<Value>) returns (r: Result<DictionarySegment>)
    ensures r.Ok? <==> |Distinct(values)| <= MAX_UINT32
    ensures r.Ok? ==> r.value == Encode(values)
  {
    var dictionary := Sort(values);
    ghost var sorted := dictionary;
    dictionary := Unique(dictionary);
    DictionaryIsDistinct(values, sorted);
    DistinctIsDictionary(values);

    var width := WidthFor(|dictionary|);
    if width.None? {
      return Err("Not implemented attribute vector size.");
    }
    var attributes := LookUpIds(values, dictionary, width.value);
    r := Ok(DictionarySegment(dictionary, attributes));
  }

  /** `_initialize_attribute_vector`: the id of every value, converted to the element type. */
  method LookUpIds(values: seq<Value>, dictionary: seq<Value>, width: Width) returns (r: AttributeVector)
    requires StrictlyIncreasing(dictionary) && |dictionary| <= MAX_UINT32
    ensures r == IdsOf(values, dictionary, width)
  {
    var ids: seq<nat> := [];
    for n := 0 to |values|
      invariant |ids| == n
      invariant forall i :: 0 <= i < n ==> ids[i] == Narrow(width, LowerBoundId(dictionary, values[i]))
    {
      var id := LowerBound(dictionary, values[n]);
      ids := ids + [Narrow(width, id)];
    }
    assert ids == IdsOf(values, dictionary, width).ids;
    var fitted := new FittedAttributeVector(width, ids);
    // nothing writes to the vector of a segment, so its contents stand for it from here on
    r := fitted.vector;
  }

  lemma DictionaryIsDistinct(values: seq<Value>, sorted: seq<Value>)
    requires Sorted(sorted) && multiset(sorted) == multiset(values)
    ensures WithoutRepeats(sorted) == Distinct(values)
  {
    WithoutRepeatsOfSorted(sorted);
    DistinctIsDictionary(values);
    forall x ensures x in sorted <==> x in values {
      assert x in multiset(sorted) <==> x in multiset(values);
    }
    StrictlyIncreasingUnique(WithoutRepeats(sorted), Distinct(values));
  }

  ghost predicate NoRepeats(values: seq<Value>) {
    forall i, j :: 0 <= i < j < |values| ==> values[i] != values[j]
  }

  /** The dictionary is as long as the segment exactly when no value repeats. */
  lemma {:induction false} DistinctLength(values: seq<Value>)
    ensures |Distinct(values)| == |values| <==> NoRepeats(values)
  {
    if values != [] {
      var init, last := values[..|values| - 1], values[|values| - 1];
      DistinctLength(init);
      DistinctIsDictionary(init);
      InsertLength(Distinct(init), last);
      assert values == init + [last];
      assert last in Distinct(init) <==> last in init;
      assert NoRepeats(values) <==> NoRepeats(init) && last !in init;
    }
  }

  /** The debug check of `DictionarySegment::get` compares the offset with the dictionary size. */
  predicate DebugCheck(segment: DictionarySegment, offset: nat) {
    offset < |segment.dictionary|
  }

  /** The check accepts every row offset exactly when no value repeats; otherwise it rejects the last
      row, which the body reads correctly. */
  lemma DebugCheckTooStrong(values: seq<Value>)
    requires |Distinct(values)| <= MAX_UINT32
    ensures NoRepeats(values) <==> forall offset :: 0 <= offset < |values| ==> DebugCheck(Encode(values), offset)
    ensures !NoRepeats(values) ==>
      && Encode(values).Valid() && Encode(values).Size() == |values| > 0
      && !DebugCheck(Encode(values), |values| - 1)
      && Encode(values).Get(|values| - 1) == values[|values| - 1]
  {
    EncodeRoundTrip(values);
    DistinctLength(values);
    DistinctIsDictionary(values);
    if !NoRepeats(values) {
      assert !DebugCheck(Encode(values), |values| - 1);
    }
  }
}
