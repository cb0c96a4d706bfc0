/** Filtering, mapping and flattening of sequences. */
module Sequences {

  ghost function Filter<T>(xs: seq<T>, keep: T -> bool): (r: seq<T>) {
    if xs == [] then []
    else
      var before := Filter(xs[..|xs| - 1], keep);
      if keep(xs[|xs| - 1]) then before + [xs[|xs| - 1]] else before
  }

  ghost function Map<T, U>(xs: seq<T>, f: T -> U): (r: seq<U>)
    ensures |r| == |xs|
    ensures forall i :: 0 <= i < |xs| ==> r[i] == f(xs[i])
  {
    seq(|xs|, i requires 0 <= i < |xs| => f(xs[i]))
  }

  ghost function Flatten<T>(xss: seq<seq<T>>): seq<T> {
    if xss == [] then [] else Flatten(xss[..|xss| - 1]) + xss[|xss| - 1]
  }

  lemma InitLast<T>(xs: seq<T>)
    requires xs != []
    ensures xs[..|xs| - 1] + [xs[|xs| - 1]] == xs
  {}

  lemma ConcatInit<T>(xs: seq<T>, ys: seq<T>)
    requires ys != []
    ensures (xs + ys)[..|xs + ys| - 1] == xs + ys[..|ys| - 1]
    ensures (xs + ys)[|xs + ys| - 1] == ys[|ys| - 1]
  {}

  lemma PrefixSnoc<T>(xs: seq<T>, i: nat)
    requires i < |xs|
    ensures xs[..i + 1] == xs[..i] + [xs[i]]
    ensures xs[..i + 1] + xs[i + 1..] == xs
  {}

  lemma FilterSnoc<T>(xs: seq<T>, x: T, keep: T -> bool)
    ensures Filter(xs + [x], keep) == if keep(x) then Filter(xs, keep) + [x] else Filter(xs, keep)
  {
    assert (xs + [x])[..|xs|] == xs;
  }

  lemma {:induction false} FilterConcat<T>(xs: seq<T>, ys: seq<T>, keep: T -> bool)
    ensures Filter(xs + ys, keep) == Filter(xs, keep) + Filter(ys, keep)
  {
    if ys == [] {
      assert xs + ys == xs;
    } else {
      var init, last := ys[..|ys| - 1], ys[|ys| - 1];
      FilterConcat(xs, init, keep);
      ConcatInit(xs, ys);
    }
  }

  /** The filter keeps only elements of the sequence that pass. */
  lemma {:induction false} FilterElements<T>(xs: seq<T>, keep: T -> bool)
    ensures |Filter(xs, keep)| <= |xs|
    ensures forall x :: x in Filter(xs, keep) <==> x in xs && keep(x)
  {
    if xs != [] {
      FilterElements(xs[..|xs| - 1], keep);
      assert xs == xs[..|xs| - 1] + [xs[|xs| - 1]];
    }
  }

  lemma {:induction false} FilterSame<T>(xs: seq<T>, f: T -> bool, g: T -> bool)
    requires forall x :: x in xs ==> f(x) == g(x)
    ensures Filter(xs, f) == Filter(xs, g)
  {
    if xs != [] {
      FilterSame(xs[..|xs| - 1], f, g);
      assert xs[|xs| - 1] in xs;
    }
  }

  lemma {:induction false} FilterCompose<T>(xs: seq<T>, f: T -> bool, g: T -> bool, both: T -> bool)
    requires forall x :: x in xs ==> (both(x) <==> f(x) && g(x))
    ensures Filter(Filter(xs, f), g) == Filter(xs, both)
  {
    if xs != [] {
      var init, last := xs[..|xs| - 1], xs[|xs| - 1];
      FilterCompose(init, f, g, both);
      assert last in xs;
      FilterSnoc(Filter(init, f), last, g);
    }
  }

  lemma {:induction false} FilterAll<T>(xs: seq<T>, keep: T -> bool)
    requires forall x :: x in xs ==> keep(x)
    ensures Filter(xs, keep) == xs
  {
    if xs != [] {
      FilterAll(xs[..|xs| - 1], keep);
      assert xs[|xs| - 1] in xs;
    }
  }

  /** Filtering the images is mapping the elements whose image passes. */
  lemma {:induction false} FilterMap<T, U>(xs: seq<T>, f: T -> U, keep: U -> bool, pre: T -> bool)
    requires forall x :: x in xs ==> (pre(x) <==> keep(f(x)))
    ensures Filter(Map(xs, f), keep) == Map(Filter(xs, pre), f)
  {
    if xs != [] {
      var init, last := xs[..|xs| - 1], xs[|xs| - 1];
      FilterMap(init, f, keep, pre);
      assert last in xs;
      assert Map(xs, f) == Map(init, f) + [f(last)];
      FilterSnoc(Map(init, f), f(last), keep);
      assert Map(Filter(init, pre) + [last], f) == Map(Filter(init, pre), f) + [f(last)];
    }
  }

  lemma FlattenSnoc<T>(xss: seq<seq<T>>, xs: seq<T>)
    ensures Flatten(xss + [xs]) == Flatten(xss) + xs
  {
    assert (xss + [xs])[..|xss|] == xss;
  }

  lemma {:induction false} FlattenConcat<T>(xss: seq<seq<T>>, yss: seq<seq<T>>)
    ensures Flatten(xss + yss) == Flatten(xss) + Flatten(yss)
  {
    if yss == [] {
      assert xss + yss == xss;
    } else {
      var init, last := yss[..|yss| - 1], yss[|yss| - 1];
      FlattenConcat(xss, init);
      ConcatInit(xss, yss);
      Associative(Flatten(xss), Flatten(init), last);
    }
  }

  lemma FlattenSplit<T>(xss: seq<seq<T>>, i: nat)
    requires i < |xss|
    ensures Flatten(xss) == Flatten(xss[..i]) + xss[i] + Flatten(xss[i + 1..])
  {
    PrefixSnoc(xss, i);
    FlattenSnoc(xss[..i], xss[i]);
    FlattenConcat(xss[..i + 1], xss[i + 1..]);
  }

  /** Replacing one part changes the flattened sequence in its place only. */
  lemma FlattenUpdate<T>(xss: seq<seq<T>>, i: nat, xs: seq<T>)
    requires i < |xss|
    ensures Flatten(xss[i := xs]) == Flatten(xss[..i]) + xs + Flatten(xss[i + 1..])
  {
    FlattenSplit(xss[i := xs], i);
    assert xss[i := xs][..i] == xss[..i] && xss[i := xs][i + 1..] == xss[i + 1..];
  }

  lemma {:induction false} FlattenEmpty<T>(xss: seq<seq<T>>)
    ensures Flatten(xss) == [] <==> forall i :: 0 <= i < |xss| ==> xss[i] == []
  {
    if xss != [] {
      FlattenEmpty(xss[..|xss| - 1]);
    }
  }

  /** Extending a part with only empty parts after it extends the flattened sequence at the end. */
  lemma FlattenExtend<T>(xss: seq<seq<T>>, i: nat, added: seq<T>)
    requires i < |xss| && forall k :: i < k < |xss| ==> xss[k] == []
    ensures Flatten(xss[i := xss[i] + added]) == Flatten(xss) + added
  {
    FlattenSplit(xss, i);
    FlattenUpdate(xss, i, xss[i] + added);
    FlattenEmpty(xss[i + 1..]);
    Associative(Flatten(xss[..i]), xss[i], added);
  }

  lemma Associative<T>(a: seq<T>, b: seq<T>, c: seq<T>)
    ensures a + (b + c) == a + b + c
  {}

  lemma AppendNothing<T>(a: seq<T>)
    ensures a + [] == a
  {}

  /** Filtering part by part is filtering the whole. */
  lemma {:induction false} FilterParts<T>(xss: seq<seq<T>>, yss: seq<seq<T>>, keep: T -> bool)
    requires |xss| == |yss| && forall k :: 0 <= k < |xss| ==> yss[k] == Filter(xss[k], keep)
    ensures Flatten(yss) == Filter(Flatten(xss), keep)
  {
    if xss != [] {
      var n := |xss| - 1;
      FilterParts(xss[..n], yss[..n], keep);
      FilterConcat(Flatten(xss[..n]), xss[n], keep);
    }
  }
}
