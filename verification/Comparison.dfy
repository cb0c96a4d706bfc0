/** The six comparison scanners: comparing values, and comparing value ids with a looked-up bound. */
module Comparison {
  import opened Values
  import opened Dictionaries

  datatype ScanType = OpEquals | OpNotEquals | OpLessThan | OpLessThanEquals | OpGreaterThan | OpGreaterThanEquals

  predicate Compare(op: ScanType, value: Value, cmp: Value) {
    match op
    case OpEquals => value == cmp
    case OpNotEquals => value != cmp
    case OpLessThan => Less(value, cmp)
    case OpLessThanEquals => !Less(cmp, value)
    case OpGreaterThan => Less(cmp, value)
    case OpGreaterThanEquals => !Less(value, cmp)
  }

  /** What an operator asks of the order of its operands: whether a smaller, an equal and a greater value
      passes. */
  predicate Asks(op: ScanType, less: bool, equal: bool, greater: bool) {
    match op
    case OpEquals => equal
    case OpNotEquals => less || greater
    case OpLessThan => less
    case OpLessThanEquals => less || equal
    case OpGreaterThan => greater
    case OpGreaterThanEquals => equal || greater
  }

  /** What the six operators decide on integers, floating-point numbers and strings. */
  lemma CompareMeans(op: ScanType, v: Value, w: Value)
    ensures v.Int? && w.Int? ==> (Compare(op, v, w) <==> Asks(op, v.i < w.i, v.i == w.i, v.i > w.i))
    ensures v.Float? && w.Float? ==> (Compare(op, v, w) <==> Asks(op, v.f < w.f, v.f == w.f, v.f > w.f))
    ensures v.Text? && w.Text? ==>
      (Compare(op, v, w) <==>
        Asks(op, v.s < w.s || exists i :: SmallerAt(v.s, w.s, i), v.s == w.s,
             w.s < v.s || exists i :: SmallerAt(w.s, v.s, i)))
  {
    LessMeans(v, w);
    LessMeans(w, v);
    LessTrichotomy(v, w);
  }

  predicate CompareIds(op: ScanType, id: nat, bound: nat) {
    match op
    case OpEquals => id == bound
    case OpNotEquals => id != bound
    case OpLessThan => id < bound
    case OpLessThanEquals => id < bound
    case OpGreaterThan => id >= bound
    case OpGreaterThanEquals => id >= bound
  }

  /** The id a scanner compares the stored ids with. */
  function BoundFor(op: ScanType, d: seq<Value>, cmp: Value): (id: nat) {
    match op
    case OpLessThan => LowerBoundId(d, cmp)
    case OpGreaterThanEquals => LowerBoundId(d, cmp)
    case OpLessThanEquals => UpperBoundId(d, cmp)
    case OpGreaterThan => UpperBoundId(d, cmp)
    case _ =>
      var id := LowerBoundId(d, cmp);
      if id < |d| && d[id] == cmp then id else INVALID_VALUE_ID
  }

  /** `get_value_id` of each scanner. */
  method GetValueId(op: ScanType, d: seq<Value>, cmp: Value) returns (id: nat)
    requires StrictlyIncreasing(d) && |d| <= MAX_UINT32
    ensures id == BoundFor(op, d, cmp)
  {
    match op
    case OpLessThan => id := LowerBound(d, cmp);
    case OpGreaterThanEquals => id := LowerBound(d, cmp);
    case OpLessThanEquals => id := UpperBound(d, cmp);
    case OpGreaterThan => id := UpperBound(d, cmp);
    case OpEquals =>
      id := LowerBound(d, cmp);
      if id != INVALID_VALUE_ID && cmp != d[id] {
        id := INVALID_VALUE_ID;
      }
    case OpNotEquals =>
      id := LowerBound(d, cmp);
      if id != INVALID_VALUE_ID && cmp != d[id] {
        id := INVALID_VALUE_ID;
      }
  }

  /** Comparing a stored id with the bound decides exactly what comparing the decoded value with the
      search value decides, for every operator, dictionary and search value. */
  lemma IdComparisonAgrees(op: ScanType, d: seq<Value>, cmp: Value, id: nat)
    requires StrictlyIncreasing(d) && |d| <= MAX_UINT32 && id < |d|
    ensures CompareIds(op, id, BoundFor(op, d, cmp)) <==> Compare(op, d[id], cmp)
  {
    LowerIndexSplits(d, cmp, id);
    UpperIndexSplits(d, cmp, id);
    if op.OpEquals? || op.OpNotEquals? {
      if d[id] == cmp {
        LowerBoundFinds(d, cmp);
        StrictlyIncreasingInjective(d, id, LowerBoundId(d, cmp));
      }
    }
  }

  /** The operator selecting exactly the values that `op` does not select. */
  function Complement(op: ScanType): (c: ScanType)
    ensures forall v, w :: Compare(c, v, w) <==> !Compare(op, v, w)
  {
    match op
    case OpEquals => OpNotEquals
    case OpNotEquals => OpEquals
    case OpLessThan => OpGreaterThanEquals
    case OpGreaterThanEquals => OpLessThan
    case OpLessThanEquals => OpGreaterThan
    case OpGreaterThan => OpLessThanEquals
  }
}
