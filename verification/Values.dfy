/** Column values and their total order.

    A column holds integers, floating-point numbers or strings. Values of one kind are compared as
    the C++ operators compare them; across kinds the kind decides, which is how `boost::variant`
    orders its alternatives. Floating-point numbers are modelled as reals, so there is no NaN and
    the order is total. */
module Values {

  datatype Value = Int(i: int) | Float(f: real) | Text(s: string)

  function Kind(v: Value): nat {
    match v
    case Int(_) => 0
    case Float(_) => 1
    case Text(_) => 2
  }

  /** Lexicographic order of strings (`std::string::operator<`). */
  predicate LexLess(a: string, b: string) {
    b != [] && (a == [] || a[0] < b[0] || (a[0] == b[0] && LexLess(a[1..], b[1..])))
  }

  predicate Less(a: Value, b: Value) {
    match (a, b)
    case (Int(x), Int(y)) => x < y
    case (Float(x), Float(y)) => x < y
    case (Text(x), Text(y)) => LexLess(x, y)
    case _ => Kind(a) < Kind(b)
  }

  /** The strings differ first at index `i`, where the first one has the smaller character. */
  predicate SmallerAt(a: string, b: string, i: nat) {
    i < |a| && i < |b| && a[..i] == b[..i] && a[i] < b[i]
  }

  /** A string is smaller than another exactly when it is a proper prefix of it or has the smaller character
      at the first index where they differ. */
  lemma {:induction false} LexLessMeans(a: string, b: string)
    ensures LexLess(a, b) <==> a < b || exists i :: SmallerAt(a, b, i)
  {
    if a != [] && b != [] {
      if a[0] == b[0] {
        LexLessMeans(a[1..], b[1..]);
        assert a == [a[0]] + a[1..] && b == [b[0]] + b[1..];
        if i: nat :| SmallerAt(a, b, i) {
          assert a[..i][1..] == a[1..][..i - 1] && b[..i][1..] == b[1..][..i - 1];
          assert SmallerAt(a[1..], b[1..], i - 1);
        }
        if i: nat :| SmallerAt(a[1..], b[1..], i) {
          assert a[..i + 1] == [a[0]] + a[1..][..i] && b[..i + 1] == [b[0]] + b[1..][..i];
          assert SmallerAt(a, b, i + 1);
        }
      } else {
        assert a[0] < b[0] ==> SmallerAt(a, b, 0);
        if i: nat :| SmallerAt(a, b, i) {
          assert i > 0 ==> a[..i][0] == b[..i][0];
        }
      }
    }
  }

  /** What the order is: that of the numbers, the lexicographic one of strings, and integers before
      floating-point numbers before strings. */
  lemma LessMeans(a: Value, b: Value)
    ensures a.Int? && b.Int? ==> (Less(a, b) <==> a.i < b.i)
    ensures a.Float? && b.Float? ==> (Less(a, b) <==> a.f < b.f)
    ensures a.Text? && b.Text? ==> (Less(a, b) <==> a.s < b.s || exists i :: SmallerAt(a.s, b.s, i))
    ensures a.Int? && !b.Int? ==> Less(a, b) && !Less(b, a)
    ensures a.Float? && b.Text? ==> Less(a, b) && !Less(b, a)
  {
    if a.Text? && b.Text? {
      LexLessMeans(a.s, b.s);
    }
  }

  lemma {:induction false} LexLessTransitive(a: string, b: string, c: string)
    requires LexLess(a, b) && LexLess(b, c)
    ensures LexLess(a, c)
  {
    if a != [] && a[0] == b[0] && b[0] == c[0] {
      LexLessTransitive(a[1..], b[1..], c[1..]);
    }
  }

  lemma {:induction false} LexLessTrichotomy(a: string, b: string)
    ensures !(LexLess(a, b) && LexLess(b, a))
    ensures a == b <==> !LexLess(a, b) && !LexLess(b, a)
  {
    if a != [] && b != [] {
      LexLessTrichotomy(a[1..], b[1..]);
      assert a == [a[0]] + a[1..] && b == [b[0]] + b[1..];
    }
  }

  lemma LessTransitive(a: Value, b: Value, c: Value)
    requires Less(a, b) && Less(b, c)
    ensures Less(a, c)
  {
    if a.Text? && b.Text? && c.Text? {
      LexLessTransitive(a.s, b.s, c.s);
    }
  }

  /** Exactly one of `a < b`, `a == b` and `b < a` holds. */
  lemma LessTrichotomy(a: Value, b: Value)
    ensures !(Less(a, b) && Less(b, a))
    ensures a == b <==> !Less(a, b) && !Less(b, a)
  {
    if a.Text? && b.Text? {
      LexLessTrichotomy(a.s, b.s);
    }
  }

  /** `a <= b < c` gives `a < c`, stated with the negated order the library algorithms use. */
  lemma NotLessThenLess(a: Value, b: Value, c: Value)
    requires !Less(b, a) && Less(b, c)
    ensures Less(a, c)
  {
    LessTrichotomy(a, b);
    if a != b {
      LessTransitive(a, b, c);
    }
  }

  lemma NotLessTransitive(a: Value, b: Value, c: Value)
    requires !Less(b, a) && !Less(c, b)
    ensures !Less(c, a)
  {
    LessTrichotomy(a, b);
    LessTrichotomy(b, c);
    if a != b && b != c {
      LessTransitive(a, b, c);
      LessTrichotomy(a, c);
    }
  }
}
