/** Small datatypes and sequence facts that every other module uses. */
module Common {

  datatype Option<+T> = None | Some(value: T)

  datatype Result<+T, +E> = Ok(value: T) | Err(error: E)

  type Byte = b: int | 0 <= b < 256

  /** No element occurs twice. */
  ghost predicate Distinct<T>(q: seq<T>) {
    forall i, j :: 0 <= i < j < |q| ==> q[i] != q[j]
  }

  /** The elements of `q` that satisfy `p`, in order. */
  ghost function Filter<T>(q: seq<T>, p: T -> bool): seq<T> {
    if q == [] then [] else (if p(q[0]) then [q[0]] else []) + Filter(q[1..], p)
  }

  lemma ConcatAssoc<T>(a: seq<T>, b: seq<T>, c: seq<T>)
    ensures a + (b + c) == a + b + c
  {
  }

  lemma {:induction false} FilterAppend<T>(a: seq<T>, b: seq<T>, p: T -> bool)
    ensures Filter(a + b, p) == Filter(a, p) + Filter(b, p)
  {
    if a == [] {
      assert a + b == b;
    } else {
      FilterAppend(a[1..], b, p);
      assert (a + b)[0] == a[0] && (a + b)[1..] == a[1..] + b;
      ConcatAssoc(if p(a[0]) then [a[0]] else [], Filter(a[1..], p), Filter(b, p));
    }
  }

  lemma FilterAll<T>(q: seq<T>, p: T -> bool)
    requires forall x :: x in q ==> p(x)
    ensures Filter(q, p) == q
  {
    if q != [] { FilterAll(q[1..], p); }
  }

  lemma FilterNone<T>(q: seq<T>, p: T -> bool)
    requires forall x :: x in q ==> !p(x)
    ensures Filter(q, p) == []
  {
    if q != [] { FilterNone(q[1..], p); }
  }

  lemma FilterIn<T>(q: seq<T>, p: T -> bool, x: T)
    ensures x in Filter(q, p) <==> x in q && p(x)
  {
    if q != [] {
      assert x in q <==> x == q[0] || x in q[1..];
      FilterIn(q[1..], p, x);
    }
  }

  /** Filtering twice is filtering by the conjunction, in either order. */
  lemma FilterSwap<T>(q: seq<T>, p: T -> bool, p': T -> bool)
    ensures Filter(Filter(q, p), p') == Filter(Filter(q, p'), p)
  {
    if q != [] {
      FilterSwap(q[1..], p, p');
      FilterAppend(if p(q[0]) then [q[0]] else [], Filter(q[1..], p), p');
      FilterAppend(if p'(q[0]) then [q[0]] else [], Filter(q[1..], p'), p);
    }
  }

  ghost function Differs<T>(x: T): T -> bool {
    (y: T) => y != x
  }

  /** `q` without the element `x`. */
  ghost function Without<T>(q: seq<T>, x: T): seq<T> {
    Filter(q, Differs(x))
  }

  /** The parts around `x` hold neither `x` nor each other's elements. */
  lemma AroundApart<T>(a: seq<T>, x: T, b: seq<T>)
    requires Distinct(a + [x] + b)
    ensures x !in a && x !in b && Distinct(a + b)
  {
    var q := a + [x] + b;
    assert q[|a|] == x;
    forall y | y in a ensures y != x { var i :| 0 <= i < |a| && a[i] == y; assert q[i] == y; }
    forall y | y in b ensures y != x { var i :| 0 <= i < |b| && b[i] == y; assert q[|a| + 1 + i] == y; }
    forall i, j | 0 <= i < j < |a + b| ensures (a + b)[i] != (a + b)[j] {
      assert q[if i < |a| then i else i + 1] != q[if j < |a| then j else j + 1];
    }
  }

  lemma WithoutSplit<T>(a: seq<T>, x: T, b: seq<T>)
    requires Distinct(a + [x] + b)
    ensures Without(a + [x] + b, x) == a + b
    ensures x !in a && x !in b && Distinct(a + b)
  {
    AroundApart(a, x, b);
    hide Distinct;
    var p := Differs(x);
    FilterAll(a, p);
    FilterAll(b, p);
    FilterNone([x], p);
    FilterAppend(a + [x], b, p);
    FilterAppend(a, [x], p);
  }

  /** Quotient and remainder are the only ones. */
  lemma QuotientIs(n: nat, m: nat, q: nat, r: nat)
    requires r < m && n == m * q + r
    ensures n / m == q && n % m == r
  {
    var q', r' := n / m, n % m;
    assert m * q - m * q' == m * (q - q');
    if q - q' >= 1 { assert m * (q - q') >= m by { Scale(m, q - q'); } }
    if q - q' <= -1 { assert m * (q' - q) >= m by { Scale(m, q' - q); } }
  }

  lemma Scale(m: nat, k: int)
    requires k >= 1
    ensures m * k >= m
  {
    assert m * k == m + m * (k - 1);
  }
}
