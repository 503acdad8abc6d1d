/** Strict orders, sorted sequences and the uniqueness of a sorted listing. */
module Ordering {

  /** Strict order of strings by code point, the shorter string first on a tie. */
  predicate Less(a: string, b: string) {
    b != [] && (a == [] || a[0] < b[0] || (a[0] == b[0] && Less(a[1..], b[1..])))
  }

  lemma {:induction false} LessIrreflexive(a: string)
    ensures !Less(a, a)
  {
    if a != [] { LessIrreflexive(a[1..]); }
  }

  lemma {:induction false} LessTransitive(a: string, b: string, c: string)
    requires Less(a, b) && Less(b, c)
    ensures Less(a, c)
  {
    if a != [] && a[0] == b[0] == c[0] { LessTransitive(a[1..], b[1..], c[1..]); }
  }

  lemma {:induction false} LessConnected(a: string, b: string)
    ensures a == b || Less(a, b) || Less(b, a)
  {
    if a != [] && b != [] && a[0] == b[0] {
      LessConnected(a[1..], b[1..]);
      if a[1..] == b[1..] {
        assert a == [a[0]] + a[1..];
        assert b == [b[0]] + b[1..];
      }
    }
  }

  /** A common beginning, after which the first text ends or has the smaller character. */
  ghost predicate Smaller(a: string, b: string) {
    exists n :: 0 <= n <= |a| && DiffersAt(a, b, n)
  }

  ghost predicate DiffersAt(a: string, b: string, n: nat) {
    n <= |a| && n < |b| && a[..n] == b[..n] && (n < |a| ==> a[n] < b[n])
  }

  /** The order is the one by code points. */
  lemma {:induction false} LessMeans(a: string, b: string)
    ensures Less(a, b) <==> Smaller(a, b)
  {
    if b != [] && a == [] { assert DiffersAt(a, b, 0); }
    if b != [] && a != [] {
      if a[0] < b[0] { assert DiffersAt(a, b, 0); }
      LessMeans(a[1..], b[1..]);
      if a[0] == b[0] && Smaller(a[1..], b[1..]) {
        var n :| 0 <= n <= |a[1..]| && DiffersAt(a[1..], b[1..], n);
        assert a[..n + 1] == [a[0]] + a[1..][..n] && b[..n + 1] == [b[0]] + b[1..][..n];
        assert DiffersAt(a, b, n + 1);
      }
      if Smaller(a, b) {
        var n :| 0 <= n <= |a| && DiffersAt(a, b, n);
        if n > 0 {
          assert a[..n][0] == b[..n][0];
          assert a[..n][1..] == a[1..][..n - 1] && b[..n][1..] == b[1..][..n - 1];
          assert DiffersAt(a[1..], b[1..], n - 1);
        }
      }
    }
  }

  ghost predicate StrictTotal<T(!new)>(less: (T, T) -> bool) {
    && (forall a :: !less(a, a))
    && (forall a, b, c :: less(a, b) && less(b, c) ==> less(a, c))
    && (forall a, b :: a == b || less(a, b) || less(b, a))
  }

  lemma LessIsStrictTotal()
    ensures StrictTotal(Less)
  {
    forall a ensures !Less(a, a) { LessIrreflexive(a); }
    forall a, b, c | Less(a, b) && Less(b, c) ensures Less(a, c) { LessTransitive(a, b, c); }
    forall a, b ensures a == b || Less(a, b) || Less(b, a) { LessConnected(a, b); }
  }

  ghost predicate Sorted<T(!new)>(less: (T, T) -> bool, xs: seq<T>) {
    forall i, j :: 0 <= i < j < |xs| ==> less(xs[i], xs[j])
  }

  /** Insert `x` into a sorted listing unless it is there already. */
  function Insert<T(!new, ==)>(less: (T, T) -> bool, x: T, xs: seq<T>): (r: seq<T>)
    ensures forall y :: y in r <==> y == x || y in xs
    ensures StrictTotal(less) && Sorted(less, xs) ==> Sorted(less, r)
  {
    if xs == [] then [x]
    else if x == xs[0] then xs
    else if less(x, xs[0]) then
      assert forall y :: y in [x] + xs <==> y == x || y in xs;
      [x] + xs
    else
      var rest := Insert(less, x, xs[1..]);
      assert xs == [xs[0]] + xs[1..];
      assert forall i :: 0 <= i < |rest| ==> rest[i] in rest;
      assert forall y :: y in xs[1..] ==> exists i :: 0 < i < |xs| && xs[i] == y;
      [xs[0]] + rest
  }

  /** Two sorted listings of the same elements are the same sequence. */
  lemma {:induction false} SortedUnique<T(!new)>(less: (T, T) -> bool, xs: seq<T>, ys: seq<T>)
    requires StrictTotal(less) && Sorted(less, xs) && Sorted(less, ys)
    requires forall x :: x in xs <==> x in ys
    ensures xs == ys
  {
    if xs != [] { assert xs[0] in ys; }
    if ys != [] { assert ys[0] in xs; }
    if xs != [] {
      var j :| 0 <= j < |ys| && ys[j] == xs[0];
      var i :| 0 <= i < |xs| && xs[i] == ys[0];
      assert xs[0] == ys[0];
      TailElements(less, xs);
      TailElements(less, ys);
      SortedUnique(less, xs[1..], ys[1..]);
      assert xs == [xs[0]] + xs[1..] && ys == [ys[0]] + ys[1..];
    }
  }

  lemma TailElements<T(!new)>(less: (T, T) -> bool, xs: seq<T>)
    requires StrictTotal(less) && Sorted(less, xs) && xs != []
    ensures forall x :: x in xs[1..] <==> x in xs && x != xs[0]
  {
    assert xs == [xs[0]] + xs[1..];
    forall x | x in xs[1..] ensures x != xs[0] {
      var i :| 0 <= i < |xs[1..]| && xs[1..][i] == x;
      assert less(xs[0], xs[i + 1]);
    }
  }
}
