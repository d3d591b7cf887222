/**
 The frozen contracts of a linear memory: the read y = M q, the merge by vector addition and the bounded
 feasibility region, over real matrices. The norm bound is stated through squares: norm(M) <= c holds
 exactly when c >= 0 and NormSq(M) <= c * c.
 */
module LinearRead {
  import opened Sorting

  type Vector = seq<real>
  type Matrix = seq<seq<real>>

  const TOLERANCE: real := 0.000000001

  ghost predicate Shaped(m: Matrix, rows: nat, cols: nat) {
    |m| == rows && forall i :: 0 <= i < |m| ==> |m[i]| == cols
  }

  function Dot(a: Vector, q: Vector): real
    requires |a| == |q|
  {
    if a == [] then 0.0 else a[0] * q[0] + Dot(a[1..], q[1..])
  }

  function Read(m: Matrix, q: Vector): Vector
    requires forall i :: 0 <= i < |m| ==> |m[i]| == |q|
  {
    seq(|m|, i requires 0 <= i < |m| => Dot(m[i], q))
  }

  function AddVec(a: Vector, b: Vector): (r: Vector)
    requires |a| == |b|
    ensures |r| == |a|
    ensures forall i :: 0 <= i < |r| ==> r[i] == a[i] + b[i]
  {
    if a == [] then [] else [a[0] + b[0]] + AddVec(a[1..], b[1..])
  }

  function Add(a: Matrix, b: Matrix): (r: Matrix)
    requires |a| == |b| && forall i :: 0 <= i < |a| ==> |a[i]| == |b[i]|
    ensures |r| == |a|
    ensures forall i :: 0 <= i < |r| ==> |r[i]| == |a[i]| && r[i] == AddVec(a[i], b[i])
  {
    if a == [] then [] else [AddVec(a[0], b[0])] + Add(a[1..], b[1..])
  }

  ghost predicate AllShaped(states: seq<Matrix>, rows: nat, cols: nat) {
    states != [] && forall k :: 0 <= k < |states| ==> Shaped(states[k], rows, cols)
  }

  /** The canonical merge: the sum of the states. */
  ghost function Merge(states: seq<Matrix>, rows: nat, cols: nat): (r: Matrix)
    requires AllShaped(states, rows, cols)
    ensures Shaped(r, rows, cols)
  {
    if |states| == 1 then states[0] else Add(states[0], Merge(states[1..], rows, cols))
  }

  // ----- Reading is linear in the state -----

  lemma {:induction false} DotAdd(a: Vector, b: Vector, q: Vector)
    requires |a| == |b| == |q|
    ensures Dot(AddVec(a, b), q) == Dot(a, q) + Dot(b, q)
  {
    if a != [] {
      DotAdd(a[1..], b[1..], q[1..]);
      Distribute(a[0], b[0], q[0]);
    }
  }

  lemma Distribute(x: real, y: real, z: real)
    ensures (x + y) * z == x * z + y * z
  {
  }

  lemma ReadAdd(a: Matrix, b: Matrix, q: Vector)
    requires Shaped(a, |b|, |q|) && Shaped(b, |b|, |q|)
    ensures Read(Add(a, b), q) == AddVec(Read(a, q), Read(b, q))
  {
    var sum, ra, rb := Read(Add(a, b), q), Read(a, q), Read(b, q);
    forall i | 0 <= i < |a|
      ensures sum[i] == AddVec(ra, rb)[i]
    {
      DotAdd(a[i], b[i], q);
    }
  }

  ghost function SumOfReads(states: seq<Matrix>, q: Vector, rows: nat): (r: Vector)
    requires AllShaped(states, rows, |q|)
    ensures |r| == rows
  {
    if |states| == 1 then Read(states[0], q) else AddVec(Read(states[0], q), SumOfReads(states[1..], q, rows))
  }

  /** Reading a merge gives the sum of the reads. */
  lemma {:induction false} ReadOfMerge(states: seq<Matrix>, q: Vector, rows: nat)
    requires AllShaped(states, rows, |q|)
    ensures Read(Merge(states, rows, |q|), q) == SumOfReads(states, q, rows)
  {
    if |states| > 1 {
      ReadOfMerge(states[1..], q, rows);
      ReadAdd(states[0], Merge(states[1..], rows, |q|), q);
    }
  }

  // ----- Merging does not depend on the order -----

  lemma SameCells(a: Matrix, b: Matrix, rows: nat, cols: nat)
    requires Shaped(a, rows, cols) && Shaped(b, rows, cols)
    requires forall i, j :: 0 <= i < rows && 0 <= j < cols ==> a[i][j] == b[i][j]
    ensures a == b
  {
    forall i | 0 <= i < rows
      ensures a[i] == b[i]
    {
    }
  }

  lemma AddCommutes(a: Matrix, b: Matrix, rows: nat, cols: nat)
    requires Shaped(a, rows, cols) && Shaped(b, rows, cols)
    ensures Add(a, b) == Add(b, a)
  {
    SameCells(Add(a, b), Add(b, a), rows, cols);
  }

  lemma AddSwaps(a: Matrix, b: Matrix, c: Matrix, rows: nat, cols: nat)
    requires Shaped(a, rows, cols) && Shaped(b, rows, cols) && Shaped(c, rows, cols)
    ensures Add(a, Add(b, c)) == Add(b, Add(a, c))
  {
    SameCells(Add(a, Add(b, c)), Add(b, Add(a, c)), rows, cols);
  }

  lemma {:induction false} MergeCons(first: Matrix, rest: seq<Matrix>, rows: nat, cols: nat)
    requires Shaped(first, rows, cols) && AllShaped(rest, rows, cols)
    ensures AllShaped([first] + rest, rows, cols)
    ensures Merge([first] + rest, rows, cols) == Add(first, Merge(rest, rows, cols))
  {
    assert ([first] + rest)[1..] == rest;
  }

  /** Any one state can be merged first. */
  lemma {:induction false} MergePullOut(front: seq<Matrix>, a: Matrix, back: seq<Matrix>, rows: nat, cols: nat)
    requires AllShaped(front + back, rows, cols) && Shaped(a, rows, cols)
    ensures AllShaped(front + [a] + back, rows, cols)
    ensures Merge(front + [a] + back, rows, cols) == Add(a, Merge(front + back, rows, cols))
    decreases |front|
  {
    if front == [] {
      assert front + [a] + back == [a] + back && front + back == back;
      MergeCons(a, back, rows, cols);
    } else {
      var first, more := front[0], front[1..];
      assert Shaped(first, rows, cols) by {
        assert (front + back)[0] == first;
      }
      assert front + [a] + back == [first] + (more + [a] + back) && front + back == [first] + (more + back);
      if more + back == [] {
        assert more + [a] + back == [a] && [first] + [] == [first];
        MergeCons(first, [a], rows, cols);
        AddCommutes(first, a, rows, cols);
      } else {
        assert AllShaped(more + back, rows, cols) by {
          assert (front + back)[1..] == more + back;
        }
        MergePullOut(more, a, back, rows, cols);
        MergeCons(first, more + [a] + back, rows, cols);
        MergeCons(first, more + back, rows, cols);
        AddSwaps(first, a, Merge(more + back, rows, cols), rows, cols);
      }
    }
  }

  lemma {:induction false} MergeOrderFree(xs: seq<Matrix>, ys: seq<Matrix>, rows: nat, cols: nat)
    requires AllShaped(xs, rows, cols) && AllShaped(ys, rows, cols) && multiset(xs) == multiset(ys)
    ensures Merge(xs, rows, cols) == Merge(ys, rows, cols)
    decreases |xs|
  {
    var front, back := TakeOut(xs, ys);
    if |xs| == 1 {
      assert front == [] && back == [] && ys == [xs[0]] == xs;
    } else {
      var k := |front|;
      assert ys[..k] == front && ys[k + 1..] == back;
      OthersShaped(ys, k, rows, cols);
      MergeOrderFree(xs[1..], front + back, rows, cols);
      MergePullOut(front, xs[0], back, rows, cols);
      assert xs == [xs[0]] + xs[1..];
      MergeCons(xs[0], xs[1..], rows, cols);
    }
  }

  lemma {:induction false} TakeOut<T>(xs: seq<T>, ys: seq<T>) returns (front: seq<T>, back: seq<T>)
    requires xs != [] && multiset(xs) == multiset(ys)
    ensures ys == front + [xs[0]] + back && multiset(xs[1..]) == multiset(front + back) && |front + back| == |xs| - 1
  {
    assert xs[0] in multiset(ys);
    var k :| 0 <= k < |ys| && ys[k] == xs[0];
    front, back := ys[..k], ys[k + 1..];
    Without(xs, 0);
    Without(ys, k);
    assert xs[..0] + xs[1..] == xs[1..];
    assert |multiset(xs)| == |xs| && |multiset(ys)| == |ys|;
    assert ys == front + [xs[0]] + back;
  }

  lemma {:induction false} OthersShaped(xs: seq<Matrix>, k: nat, rows: nat, cols: nat)
    requires AllShaped(xs, rows, cols) && k < |xs| && |xs| > 1
    ensures AllShaped(xs[..k] + xs[k + 1..], rows, cols)
  {
    var rest := xs[..k] + xs[k + 1..];
    assert forall i :: 0 <= i < |rest| ==> rest[i] == xs[if i < k then i else i + 1];
  }

  // ----- Norms -----

  function SquareSum(v: Vector): (r: real)
    ensures r >= 0.0
  {
    if v == [] then 0.0 else Square(v[0]) + SquareSum(v[1..])
  }

  function Square(x: real): (r: real)
    ensures r >= 0.0
  {
    x * x
  }

  function NormSq(m: Matrix): (r: real)
    ensures r >= 0.0
  {
    if m == [] then 0.0 else SquareSum(m[0]) + NormSq(m[1..])
  }

  /** k copies of x added up. Keeps products of unknowns out of the sums below. */
  function Times(k: nat, x: real): real {
    if k == 0 then 0.0 else x + Times(k - 1, x)
  }

  lemma {:induction false} TimesIsProduct(k: nat, x: real)
    ensures Times(k, x) == k as real * x
  {
    if k > 0 {
      TimesIsProduct(k - 1, x);
      Distribute(1.0, (k - 1) as real, x);
    }
  }

  lemma {:induction false} TimesAdd(k: nat, x: real, y: real)
    ensures Times(k, x + y) == Times(k, x) + Times(k, y)
  {
    if k > 0 {
      TimesAdd(k - 1, x, y);
    }
  }

  lemma {:induction false} TimesMonotone(k: nat, x: real, y: real)
    requires x <= y
    ensures Times(k, x) <= Times(k, y)
    ensures k > 0 && x < y ==> Times(k, x) < Times(k, y)
  {
    if k > 0 {
      TimesMonotone(k - 1, x, y);
    }
  }

  /** k (a + b)^2 <= (k + 1) (a^2 + k b^2), because the difference is (a - k b)^2. */
  lemma WeightedSquare(k: nat, a: real, b: real)
    ensures Times(k, Square(a + b)) <= Times(k + 1, Square(a) + Times(k, Square(b)))
  {
    TimesIsProduct(k, Square(a + b));
    TimesIsProduct(k, Square(b));
    TimesIsProduct(k + 1, Square(a) + Times(k, Square(b)));
    WeightedProduct(k as real, a, b);
  }

  lemma WeightedProduct(k: real, a: real, b: real)
    ensures k * ((a + b) * (a + b)) <= (k + 1.0) * (a * a + k * (b * b))
  {
    var d := (k + 1.0) * (a * a + k * (b * b)) - k * ((a + b) * (a + b));
    assert d == (a - k * b) * (a - k * b) by {
      assert (k + 1.0) * (a * a + k * (b * b)) == k * (a * a) + a * a + k * k * (b * b) + k * (b * b);
      assert (a + b) * (a + b) == a * a + 2.0 * (a * b) + b * b;
      assert (a - k * b) * (a - k * b) == a * a - 2.0 * (k * (a * b)) + k * k * (b * b);
    }
    assert Square(a - k * b) >= 0.0;
  }

  /** Weighted bounds add up. */
  lemma WeightedTotal(k: nat, s: real, a: real, b: real, s': real, a': real, b': real)
    requires Times(k, s) <= Times(k + 1, a + Times(k, b)) && Times(k, s') <= Times(k + 1, a' + Times(k, b'))
    ensures Times(k, s + s') <= Times(k + 1, (a + a') + Times(k, b + b'))
  {
    TimesAdd(k, s, s');
    TimesAdd(k, b, b');
    TimesAdd(k + 1, a + Times(k, b), a' + Times(k, b'));
    assert (a + a') + Times(k, b + b') == (a + Times(k, b)) + (a' + Times(k, b'));
  }

  lemma {:induction false} WeightedRow(k: nat, a: Vector, b: Vector)
    requires |a| == |b|
    ensures Times(k, SquareSum(AddVec(a, b))) <= Times(k + 1, SquareSum(a) + Times(k, SquareSum(b)))
  {
    if a == [] {
      WeightedSquare(k, 0.0, 0.0);
    } else {
      var sum := AddVec(a, b);
      assert sum[1..] == AddVec(a[1..], b[1..]);
      WeightedRow(k, a[1..], b[1..]);
      WeightedSquare(k, a[0], b[0]);
      WeightedTotal(k, Square(sum[0]), Square(a[0]), Square(b[0]), SquareSum(sum[1..]), SquareSum(a[1..]), SquareSum(b[1..]));
    }
  }

  lemma {:induction false} WeightedNorm(k: nat, a: Matrix, b: Matrix)
    requires |a| == |b| && forall i :: 0 <= i < |a| ==> |a[i]| == |b[i]|
    ensures Times(k, NormSq(Add(a, b))) <= Times(k + 1, NormSq(a) + Times(k, NormSq(b)))
  {
    if a == [] {
      WeightedSquare(k, 0.0, 0.0);
    } else {
      var sum := Add(a, b);
      assert sum[1..] == Add(a[1..], b[1..]);
      WeightedNorm(k, a[1..], b[1..]);
      WeightedRow(k, a[0], b[0]);
      WeightedTotal(k, SquareSum(sum[0]), SquareSum(a[0]), SquareSum(b[0]), NormSq(sum[1..]), NormSq(a[1..]), NormSq(b[1..]));
    }
  }

  function SumOfNorms(states: seq<Matrix>): (r: real)
    ensures r >= 0.0
  {
    if states == [] then 0.0 else NormSq(states[0]) + SumOfNorms(states[1..])
  }

  lemma {:induction false} TimesSwap(j: nat, k: nat, x: real)
    ensures Times(j, Times(k, x)) == Times(k, Times(j, x))
  {
    TimesIsProduct(k, x);
    TimesIsProduct(j, x);
    TimesIsProduct(j, Times(k, x));
    TimesIsProduct(k, Times(j, x));
    Reassociate(j as real, k as real, x);
  }

  lemma Reassociate(x: real, y: real, z: real)
    ensures x * (y * z) == y * (x * z)
  {
  }

  /** From a bound for k states to one for k + 1. */
  lemma OneMore(k: nat, total: real, rest: real, first: real, norms: real)
    requires k > 0 && rest <= Times(k, norms)
    requires Times(k, total) <= Times(k + 1, rest + Times(k, first))
    ensures total <= Times(k + 1, norms + first)
  {
    TimesAdd(k, norms, first);
    TimesMonotone(k + 1, rest + Times(k, first), Times(k, norms + first));
    TimesSwap(k + 1, k, norms + first);
    if Times(k + 1, norms + first) < total {
      TimesMonotone(k, Times(k + 1, norms + first), total);
    }
  }

  lemma {:induction false} MergeNormTimes(states: seq<Matrix>, rows: nat, cols: nat)
    requires AllShaped(states, rows, cols)
    ensures NormSq(Merge(states, rows, cols)) <= Times(|states|, SumOfNorms(states))
  {
    if |states| == 1 {
      assert states[1..] == [];
    } else {
      var rest, first, k := Merge(states[1..], rows, cols), states[0], |states| - 1;
      MergeNormTimes(states[1..], rows, cols);
      AddCommutes(first, rest, rows, cols);
      WeightedNorm(k, rest, first);
      OneMore(k, NormSq(Add(rest, first)), NormSq(rest), NormSq(first), SumOfNorms(states[1..]));
    }
  }

  lemma NormTimes(states: seq<Matrix>, rows: nat, cols: nat, n: nat, merged: real, norms: real)
    requires AllShaped(states, rows, cols) && n == |states|
    requires merged == NormSq(Merge(states, rows, cols)) && norms == SumOfNorms(states)
    ensures merged <= Times(n, norms)
  {
    MergeNormTimes(states, rows, cols);
  }

  lemma TimesAtMost(n: nat, x: real, y: real)
    requires y <= Times(n, x)
    ensures y <= n as real * x
  {
    TimesIsProduct(n, x);
  }

  /** The squared norm of a merge of n states is at most n times the sum of their squared norms. */
  lemma {:induction false} MergeNormBound(states: seq<Matrix>, rows: nat, cols: nat)
    requires AllShaped(states, rows, cols)
    ensures NormSq(Merge(states, rows, cols)) <= |states| as real * SumOfNorms(states)
  {
    var n, merged, norms := |states|, NormSq(Merge(states, rows, cols)), SumOfNorms(states);
    NormTimes(states, rows, cols, n, merged, norms);
    TimesAtMost(n, norms, merged);
  }

  // ----- The triangle inequality -----

  /** k s is at most p a + q b. */
  predicate Balanced(k: real, p: real, q: real, s: real, a: real, b: real) { k * s <= p * a + q * b }

  lemma BalancedSum(k: real, p: real, q: real, s: real, a: real, b: real, s': real, a': real, b': real)
    requires Balanced(k, p, q, s, a, b) && Balanced(k, p, q, s', a', b')
    ensures Balanced(k, p, q, s + s', a + a', b + b')
  {
    Distribute(s, s', k);
    Distribute(a, a', p);
    Distribute(b, b', q);
  }

  /** c d (x + y)^2 <= (c + d) (d x^2 + c y^2), because the difference is (d x - c y)^2. */
  lemma CellAlgebra(c: real, d: real, x: real, y: real)
    ensures c * d * ((x + y) * (x + y)) <= (c + d) * d * (x * x) + (c + d) * c * (y * y)
  {
    var diff := (c + d) * d * (x * x) + (c + d) * c * (y * y) - c * d * ((x + y) * (x + y));
    assert diff == (d * x - c * y) * (d * x - c * y) by {
      assert (c + d) * d * (x * x) == c * d * (x * x) + d * d * (x * x);
      assert (c + d) * c * (y * y) == c * c * (y * y) + c * d * (y * y);
      assert c * d * ((x + y) * (x + y)) == c * d * (x * x) + 2.0 * (c * d * (x * y)) + c * d * (y * y);
      assert (d * x - c * y) * (d * x - c * y) == d * d * (x * x) - 2.0 * (c * d * (x * y)) + c * c * (y * y);
    }
    assert Square(d * x - c * y) >= 0.0;
  }

  lemma BalancedCell(c: real, d: real, k: real, p: real, q: real, x: real, y: real)
    requires k == c * d && p == (c + d) * d && q == (c + d) * c
    ensures Balanced(k, p, q, Square(x + y), Square(x), Square(y))
  {
    CellAlgebra(c, d, x, y);
  }

  lemma {:induction false} BalancedRow(c: real, d: real, k: real, p: real, q: real, a: Vector, b: Vector)
    requires |a| == |b| && k == c * d && p == (c + d) * d && q == (c + d) * c
    ensures Balanced(k, p, q, SquareSum(AddVec(a, b)), SquareSum(a), SquareSum(b))
  {
    if a != [] {
      var sum := AddVec(a, b);
      assert sum[1..] == AddVec(a[1..], b[1..]);
      BalancedRow(c, d, k, p, q, a[1..], b[1..]);
      BalancedCell(c, d, k, p, q, a[0], b[0]);
      BalancedSum(k, p, q, Square(sum[0]), Square(a[0]), Square(b[0]),
                  SquareSum(sum[1..]), SquareSum(a[1..]), SquareSum(b[1..]));
    }
  }

  lemma {:induction false} BalancedNorm(c: real, d: real, k: real, p: real, q: real, a: Matrix, b: Matrix)
    requires |a| == |b| && forall i :: 0 <= i < |a| ==> |a[i]| == |b[i]|
    requires k == c * d && p == (c + d) * d && q == (c + d) * c
    ensures Balanced(k, p, q, NormSq(Add(a, b)), NormSq(a), NormSq(b))
  {
    if a != [] {
      var sum := Add(a, b);
      assert sum[1..] == Add(a[1..], b[1..]);
      BalancedNorm(c, d, k, p, q, a[1..], b[1..]);
      BalancedRow(c, d, k, p, q, a[0], b[0]);
      BalancedSum(k, p, q, SquareSum(sum[0]), SquareSum(a[0]), SquareSum(b[0]),
                  NormSq(sum[1..]), NormSq(a[1..]), NormSq(b[1..]));
    }
  }

  lemma {:induction false} ZeroRowOnly(v: Vector, i: nat)
    requires SquareSum(v) <= 0.0 && i < |v|
    ensures v[i] == 0.0
  {
    ZeroSquare(v[0], SquareSum(v[1..]));
    if i > 0 {
      ZeroRowOnly(v[1..], i - 1);
    }
  }

  lemma PositiveProduct(x: real, y: real, s: real)
    requires x > 0.0 && y > 0.0 && s == x * y
    ensures s > 0.0
  {
  }

  lemma NonzeroSquare(x: real)
    requires x != 0.0
    ensures Square(x) > 0.0
  {
    if x > 0.0 {
      PositiveProduct(x, x, Square(x));
    } else {
      PositiveProduct(-x, -x, Square(x));
    }
  }

  lemma ZeroSquare(x: real, rest: real)
    requires Square(x) + rest <= 0.0 && rest >= 0.0
    ensures x == 0.0 && rest <= 0.0
  {
    if x != 0.0 {
      NonzeroSquare(x);
    }
  }

  lemma {:induction false} ZeroNormOnly(m: Matrix, i: nat, j: nat)
    requires NormSq(m) <= 0.0 && i < |m| && j < |m[i]|
    ensures m[i][j] == 0.0
  {
    if i == 0 {
      ZeroRowOnly(m[0], j);
    } else {
      ZeroNormOnly(m[1..], i - 1, j);
    }
  }

  lemma AddZero(a: Matrix, b: Matrix, rows: nat, cols: nat)
    requires Shaped(a, rows, cols) && Shaped(b, rows, cols) && NormSq(a) <= 0.0
    ensures Add(a, b) == b
  {
    forall i, j | 0 <= i < rows && 0 <= j < cols ensures a[i][j] == 0.0 { ZeroNormOnly(a, i, j); }
    SameCells(Add(a, b), b, rows, cols);
  }

  lemma PositiveScale(k: real, x: real, y: real)
    requires k > 0.0 && k * x <= k * y
    ensures x <= y
  {
  }

  lemma ScaleBounds(c: real, d: real, k: real, p: real, q: real, a: real, b: real)
    requires c > 0.0 && d > 0.0 && k == c * d && p == (c + d) * d && q == (c + d) * c && a <= Square(c) && b <= Square(d)
    ensures p * a + q * b <= k * Square(c + d)
  {
    assert p > 0.0 && q > 0.0;
    assert p * a <= p * (c * c) && q * b <= q * (d * d);
    assert p * (c * c) == k * (c * (c + d)) by {
      assert (c + d) * d * (c * c) == c * d * (c * (c + d));
    }
    assert q * (d * d) == k * (d * (c + d)) by {
      assert (c + d) * c * (d * d) == c * d * (d * (c + d));
    }
    Distribute(c * (c + d), d * (c + d), k);
    assert c * (c + d) + d * (c + d) == (c + d) * (c + d);
  }

  lemma TriangleInside(a: Matrix, b: Matrix, c: real, d: real)
    requires |a| == |b| && forall i :: 0 <= i < |a| ==> |a[i]| == |b[i]|
    requires c > 0.0 && d > 0.0 && NormSq(a) <= Square(c) && NormSq(b) <= Square(d)
    ensures NormSq(Add(a, b)) <= Square(c + d)
  {
    BalancedNorm(c, d, c * d, (c + d) * d, (c + d) * c, a, b);
    Unbalance(c, d, c * d, (c + d) * d, (c + d) * c, NormSq(a), NormSq(b), NormSq(Add(a, b)));
  }

  lemma Unbalance(c: real, d: real, k: real, p: real, q: real, x: real, y: real, total: real)
    requires c > 0.0 && d > 0.0 && k == c * d && p == (c + d) * d && q == (c + d) * c
    requires x <= Square(c) && y <= Square(d) && Balanced(k, p, q, total, x, y)
    ensures total <= Square(c + d)
  {
    ScaleBounds(c, d, k, p, q, x, y);
    PositiveScale(k, total, Square(c + d));
  }

  /** States within c and d add up to a state within c + d. */
  lemma Triangle(a: Matrix, b: Matrix, rows: nat, cols: nat, c: real, d: real)
    requires Shaped(a, rows, cols) && Shaped(b, rows, cols) && c >= 0.0 && d >= 0.0
    requires NormSq(a) <= Square(c) && NormSq(b) <= Square(d)
    ensures NormSq(Add(a, b)) <= Square(c + d)
  {
    if c == 0.0 {
      AddZero(a, b, rows, cols);
    } else if d == 0.0 {
      AddCommutes(a, b, rows, cols);
      AddZero(b, a, rows, cols);
    } else {
      TriangleInside(a, b, c, d);
    }
  }

  function Total(bounds: seq<real>): real {
    if bounds == [] then 0.0 else bounds[0] + Total(bounds[1..])
  }

  lemma {:induction false} TotalNonNegative(bounds: seq<real>)
    requires forall k :: 0 <= k < |bounds| ==> bounds[k] >= 0.0
    ensures Total(bounds) >= 0.0
  {
    if bounds != [] {
      TotalNonNegative(bounds[1..]);
    }
  }

  /** Minkowski: states within c_1, ..., c_n merge to a state within c_1 + ... + c_n. */
  lemma {:induction false} MergeWithinEach(states: seq<Matrix>, rows: nat, cols: nat, bounds: seq<real>)
    requires AllShaped(states, rows, cols) && |bounds| == |states|
    requires forall k :: 0 <= k < |states| ==> bounds[k] >= 0.0 && NormSq(states[k]) <= Square(bounds[k])
    ensures NormSq(Merge(states, rows, cols)) <= Square(Total(bounds))
  {
    if |states| == 1 {
      assert states[1..] == [] && bounds[1..] == [];
      assert Total(bounds) == bounds[0];
    } else {
      MergeWithinEach(states[1..], rows, cols, bounds[1..]);
      TotalNonNegative(bounds[1..]);
      Triangle(states[0], Merge(states[1..], rows, cols), rows, cols, bounds[0], Total(bounds[1..]));
    }
  }

  // ----- The feasibility region -----

  predicate Feasible(m: Matrix, budget: real) {
    budget + TOLERANCE >= 0.0 && NormSq(m) <= Square(budget + TOLERANCE)
  }

  lemma {:induction false} SumOfFeasible(states: seq<Matrix>, bound: real)
    requires forall k :: 0 <= k < |states| ==> NormSq(states[k]) <= bound
    ensures SumOfNorms(states) <= Times(|states|, bound)
  {
    if states != [] {
      SumOfFeasible(states[1..], bound);
    }
  }

  lemma SquareOfTimes(n: nat, c: real, bound: real, nc: real)
    requires bound == Square(c) && nc == n as real * c
    ensures Times(n, Times(n, bound)) == Square(nc)
  {
    TimesIsProduct(n, bound);
    TimesIsProduct(n, Times(n, bound));
    Regroup(n as real, c);
  }

  lemma Regroup(n: real, c: real)
    ensures n * (n * (c * c)) == (n * c) * (n * c)
  {
  }

  lemma {:induction false} MergeWithinBound(states: seq<Matrix>, rows: nat, cols: nat, bound: real)
    requires AllShaped(states, rows, cols) && forall k :: 0 <= k < |states| ==> NormSq(states[k]) <= bound
    ensures NormSq(Merge(states, rows, cols)) <= Times(|states|, Times(|states|, bound))
  {
    MergeNormTimes(states, rows, cols);
    SumOfFeasible(states, bound);
    TimesMonotone(|states|, SumOfNorms(states), Times(|states|, bound));
  }

  /** `bound` and `nc` stand for the two products, so that the argument about lists stays linear. */
  lemma {:induction false} WithinOf(states: seq<Matrix>, rows: nat, cols: nat, c: real, bound: real, nc: real)
    requires AllShaped(states, rows, cols) && bound == Square(c) && nc == |states| as real * c
    requires forall k :: 0 <= k < |states| ==> NormSq(states[k]) <= bound
    ensures NormSq(Merge(states, rows, cols)) <= Square(nc)
  {
    MergeWithinBound(states, rows, cols, bound);
    SquareOfTimes(|states|, c, bound, nc);
  }

  /** n states of norm at most c merge to a state of norm at most n c. */
  lemma {:induction false} MergeWithin(states: seq<Matrix>, rows: nat, cols: nat, c: real)
    requires AllShaped(states, rows, cols) && forall k :: 0 <= k < |states| ==> NormSq(states[k]) <= Square(c)
    ensures NormSq(Merge(states, rows, cols)) <= Square(|states| as real * c)
  {
    WithinOf(states, rows, cols, c, Square(c), |states| as real * c);
  }

  /** `n` and `total` likewise. */
  lemma {:induction false} FeasibleOf(states: seq<Matrix>, rows: nat, cols: nat, n: real, budget: real, total: real)
    requires AllShaped(states, rows, cols) && n == |states| as real
    requires forall k :: 0 <= k < |states| ==> Feasible(states[k], budget)
    requires total == n * budget + (n - 1.0) * TOLERANCE
    ensures Feasible(Merge(states, rows, cols), total)
  {
    assert total + TOLERANCE >= 0.0 by {
      FeasibleMeans(states, budget, budget + TOLERANCE, Square(budget + TOLERANCE));
      ScaledSum(n, budget, budget + TOLERANCE);
    }
    assert NormSq(Merge(states, rows, cols)) <= Square(total + TOLERANCE) by {
      FeasibleMeans(states, budget, budget + TOLERANCE, Square(budget + TOLERANCE));
      ScaledSum(n, budget, budget + TOLERANCE);
      WithinOf(states, rows, cols, budget + TOLERANCE, Square(budget + TOLERANCE), total + TOLERANCE);
    }
  }

  lemma {:induction false} FeasibleMeans(states: seq<Matrix>, budget: real, c: real, bound: real)
    requires c == budget + TOLERANCE && bound == Square(c) && states != []
    requires forall k :: 0 <= k < |states| ==> Feasible(states[k], budget)
    ensures c >= 0.0 && forall k :: 0 <= k < |states| ==> NormSq(states[k]) <= bound
  {
    assert Feasible(states[0], budget);
  }

  lemma ScaledSum(n: real, budget: real, c: real)
    requires n >= 0.0 && c == budget + TOLERANCE && c >= 0.0
    ensures n * budget + (n - 1.0) * TOLERANCE + TOLERANCE == n * c >= 0.0
  {
  }

  /**
   n feasible states merge to a state of n times the budget; the tolerance of the test is spent n times too,
   of which the test at the larger budget gives one back.
   */
  lemma {:induction false} MergeFeasible(states: seq<Matrix>, rows: nat, cols: nat, budget: real)
    requires AllShaped(states, rows, cols) && forall k :: 0 <= k < |states| ==> Feasible(states[k], budget)
    ensures Feasible(Merge(states, rows, cols), |states| as real * budget + (|states| as real - 1.0) * TOLERANCE)
  {
    var n := |states| as real;
    FeasibleOf(states, rows, cols, n, budget, n * budget + (n - 1.0) * TOLERANCE);
  }

  /** The matrix with x in one corner and zeros elsewhere. */
  function Corner(rows: nat, cols: nat, x: real): Matrix
    requires rows > 0 && cols > 0
  {
    [[x] + seq(cols - 1, _ => 0.0)] + seq(rows - 1, _ => seq(cols, _ => 0.0))
  }

  lemma {:induction false} ZeroRow(v: Vector)
    requires forall i :: 0 <= i < |v| ==> v[i] == 0.0
    ensures SquareSum(v) == 0.0
  {
    if v != [] {
      ZeroRow(v[1..]);
    }
  }

  lemma {:induction false} ZeroNorm(m: Matrix)
    requires forall i, j :: 0 <= i < |m| && 0 <= j < |m[i]| ==> m[i][j] == 0.0
    ensures NormSq(m) == 0.0
  {
    if m != [] {
      ZeroRow(m[0]);
      assert forall i, j :: 0 <= i < |m[1..]| && 0 <= j < |m[1..][i]| ==> m[1..][i][j] == m[i + 1][j];
      ZeroNorm(m[1..]);
    }
  }

  lemma CornerNorm(rows: nat, cols: nat, x: real)
    requires rows > 0 && cols > 0
    ensures Shaped(Corner(rows, cols, x), rows, cols) && NormSq(Corner(rows, cols, x)) == Square(x)
  {
    var m := Corner(rows, cols, x);
    ZeroRow(m[0][1..]);
    ZeroNorm(m[1..]);
  }

  lemma CornerDoubled(rows: nat, cols: nat, x: real)
    requires rows > 0 && cols > 0
    ensures Shaped(Corner(rows, cols, x), rows, cols)
    ensures Add(Corner(rows, cols, x), Corner(rows, cols, x)) == Corner(rows, cols, x + x)
  {
    var m := Corner(rows, cols, x);
    SameCells(Add(m, m), Corner(rows, cols, x + x), rows, cols);
  }

  ghost predicate ClosedUnderMerge(rows: nat, cols: nat, budget: real) {
    forall a, b :: Shaped(a, rows, cols) && Shaped(b, rows, cols) && Feasible(a, budget) && Feasible(b, budget) ==>
                     Feasible(Merge([a, b], rows, cols), budget)
  }

  /** The region is not closed under merge, for any budget that admits more than the zero state. */
  lemma ClosedIff(rows: nat, cols: nat, budget: real)
    requires rows > 0 && cols > 0
    ensures ClosedUnderMerge(rows, cols, budget) <==> budget + TOLERANCE <= 0.0
  {
    if budget + TOLERANCE > 0.0 {
      DoublingEscapes(rows, cols, budget);
    } else {
      forall a, b | Shaped(a, rows, cols) && Shaped(b, rows, cols) && Feasible(a, budget) && Feasible(b, budget)
        ensures Feasible(Merge([a, b], rows, cols), budget)
      {
        FeasibleOf([a, b], rows, cols, 2.0, budget, 2.0 * budget + TOLERANCE);
        LowerTotal(Merge([a, b], rows, cols), budget);
      }
    }
  }

  lemma LowerTotal(m: Matrix, budget: real)
    requires budget + TOLERANCE <= 0.0 && Feasible(m, 2.0 * budget + TOLERANCE)
    ensures Feasible(m, budget)
  {
  }

  lemma DoublingEscapes(rows: nat, cols: nat, budget: real)
    requires rows > 0 && cols > 0 && budget + TOLERANCE > 0.0
    ensures !ClosedUnderMerge(rows, cols, budget)
  {
    var c := budget + TOLERANCE;
    var m := Corner(rows, cols, c);
    assert Merge([m, m], rows, cols) == Corner(rows, cols, c + c) by {
      CornerDoubled(rows, cols, c);
      assert Merge([m, m], rows, cols) == Add(m, m);
    }
    assert Shaped(m, rows, cols) && Feasible(m, budget) by {
      CornerNorm(rows, cols, c);
    }
    assert !Feasible(Corner(rows, cols, c + c), budget) by {
      CornerNorm(rows, cols, c + c);
      SquareGrows(c, c + c);
    }
  }

  lemma SquareGrows(c: real, d: real)
    requires 0.0 < c < d
    ensures Square(c) < Square(d)
  {
    ProductGrows(c, d);
  }

  lemma ProductGrows(c: real, d: real)
    requires 0.0 < c < d
    ensures c * c < d * d
  {
    assert d * d > c * d;
    assert c * d > c * c;
  }

  // ----- What read and norm compute, cell by cell -----

  function Scale(s: real, q: Vector): (r: Vector)
    ensures |r| == |q|
    ensures forall i :: 0 <= i < |r| ==> r[i] == s * q[i]
  {
    if q == [] then [] else [s * q[0]] + Scale(s, q[1..])
  }

  /** One in place i, zero elsewhere. */
  function Unit(n: nat, i: nat): (r: Vector)
    ensures |r| == n
  {
    seq(n, j => if j == i then 1.0 else 0.0)
  }

  lemma {:induction false} DotOfSum(a: Vector, p: Vector, q: Vector)
    requires |a| == |p| == |q|
    ensures Dot(a, AddVec(p, q)) == Dot(a, p) + Dot(a, q)
  {
    if a != [] {
      DotOfSum(a[1..], p[1..], q[1..]);
      Distribute(p[0], q[0], a[0]);
    }
  }

  lemma {:induction false} DotOfScaled(a: Vector, q: Vector, s: real)
    requires |a| == |q|
    ensures Dot(a, Scale(s, q)) == s * Dot(a, q)
  {
    if a != [] {
      DotOfScaled(a[1..], q[1..], s);
      assert Scale(s, q) == [s * q[0]] + Scale(s, q[1..]);
      assert Scale(s, q)[1..] == Scale(s, q[1..]);
      Pulled(a[0], q[0], s, Dot(a[1..], q[1..]));
    }
  }

  lemma Pulled(x: real, y: real, s: real, rest: real)
    ensures x * (s * y) + s * rest == s * (x * y + rest)
  {
  }

  lemma {:induction false} DotZero(a: Vector, q: Vector)
    requires |a| == |q| && forall j :: 0 <= j < |q| ==> q[j] == 0.0
    ensures Dot(a, q) == 0.0
  {
    if a != [] {
      DotZero(a[1..], q[1..]);
    }
  }

  lemma {:induction false} DotUnit(a: Vector, i: nat)
    requires i < |a|
    ensures Dot(a, Unit(|a|, i)) == a[i]
  {
    var q := Unit(|a|, i);
    if i == 0 {
      DotZero(a[1..], q[1..]);
    } else {
      assert q[1..] == Unit(|a| - 1, i - 1);
      DotUnit(a[1..], i - 1);
    }
  }

  /** A read is linear in the query: it adds up. */
  lemma {:induction false} ReadOfSum(m: Matrix, p: Vector, q: Vector)
    requires Shaped(m, |m|, |p|) && |p| == |q|
    ensures Read(m, AddVec(p, q)) == AddVec(Read(m, p), Read(m, q))
  {
    forall i | 0 <= i < |m|
      ensures Read(m, AddVec(p, q))[i] == Read(m, p)[i] + Read(m, q)[i]
    {
      DotOfSum(m[i], p, q);
    }
  }

  lemma {:induction false} RowOfScaled(row: Vector, q: Vector, s: real, read: real)
    requires |row| == |q| && read == Dot(row, q)
    ensures Dot(row, Scale(s, q)) == s * read
  {
    DotOfScaled(row, q, s);
  }

  /** And it scales. */
  lemma {:induction false} ReadOfScaled(m: Matrix, q: Vector, s: real, read: Vector, scaled: Vector)
    requires Shaped(m, |m|, |q|) && read == Read(m, q) && scaled == Scale(s, q)
    ensures |Read(m, scaled)| == |read| && forall i :: 0 <= i < |read| ==> Read(m, scaled)[i] == s * read[i]
  {
    forall i | 0 <= i < |read|
      ensures Read(m, scaled)[i] == s * read[i]
    {
      RowOfScaled(m[i], q, s, read[i]);
    }
  }

  /** And the i-th unit query reads column i, which with linearity says what a read is. */
  lemma {:induction false} ReadOfUnit(m: Matrix, cols: nat, j: nat)
    requires Shaped(m, |m|, cols) && j < cols
    ensures |Read(m, Unit(cols, j))| == |m|
    ensures forall i :: 0 <= i < |m| ==> Read(m, Unit(cols, j))[i] == m[i][j]
  {
    forall i | 0 <= i < |m|
      ensures Read(m, Unit(cols, j))[i] == m[i][j]
    {
      DotUnit(m[i], j);
    }
  }

  function Cells(states: seq<Matrix>, i: nat, j: nat): seq<real>
    requires forall k :: 0 <= k < |states| ==> i < |states[k]| && j < |states[k][i]|
  {
    seq(|states|, k requires 0 <= k < |states| => states[k][i][j])
  }

  /** Each cell of a merge is the sum of that cell over the states. */
  lemma {:induction false} MergeCell(states: seq<Matrix>, rows: nat, cols: nat, i: nat, j: nat)
    requires AllShaped(states, rows, cols) && i < rows && j < cols
    ensures Merge(states, rows, cols)[i][j] == Total(Cells(states, i, j))
  {
    var cells := Cells(states, i, j);
    if |states| == 1 {
      assert cells[1..] == [];
    } else {
      assert cells[1..] == Cells(states[1..], i, j);
      MergeCell(states[1..], rows, cols, i, j);
    }
  }

  lemma {:induction false} SquareSumUpdate(v: Vector, j: nat, x: real)
    requires j < |v|
    ensures SquareSum(v[j := x]) == SquareSum(v) - v[j] * v[j] + x * x
  {
    if j == 0 {
      assert v[j := x][1..] == v[1..];
    } else {
      assert v[j := x][1..] == v[1..][j - 1 := x];
      SquareSumUpdate(v[1..], j - 1, x);
    }
  }

  /** The squared norm is the sum of the squared cells: zero for zeros, and each cell counts with its square. */
  lemma {:induction false} NormCell(m: Matrix, i: nat, j: nat, x: real)
    requires i < |m| && j < |m[i]|
    ensures NormSq(m[i := m[i][j := x]]) == NormSq(m) - m[i][j] * m[i][j] + x * x
    ensures (forall k, l :: 0 <= k < |m| && 0 <= l < |m[k]| ==> m[k][l] == 0.0) ==> NormSq(m) == 0.0
  {
    if forall k, l :: 0 <= k < |m| && 0 <= l < |m[k]| ==> m[k][l] == 0.0 {
      ZeroNorm(m);
    }
    NormCellAt(m, i, j, x);
  }

  lemma {:induction false} NormCellAt(m: Matrix, i: nat, j: nat, x: real)
    requires i < |m| && j < |m[i]|
    ensures NormSq(m[i := m[i][j := x]]) == NormSq(m) - m[i][j] * m[i][j] + x * x
  {
    if i == 0 {
      assert m[i := m[i][j := x]][1..] == m[1..];
      SquareSumUpdate(m[0], j, x);
    } else {
      assert m[i := m[i][j := x]][1..] == m[1..][i - 1 := m[i][j := x]];
      NormCellAt(m[1..], i - 1, j, x);
    }
  }

  /** Feasible means that the norm is at most the budget and a billionth, whatever number r the norm is. */
  lemma FeasibleIff(m: Matrix, budget: real, r: real)
    requires r >= 0.0 && r * r == NormSq(m)
    ensures Feasible(m, budget) <==> r <= budget + 0.000000001
  {
    if budget + TOLERANCE >= 0.0 {
      SquareOrder(r, budget + TOLERANCE);
    }
  }

  lemma SquareOrder(r: real, c: real)
    requires r >= 0.0 && c >= 0.0
    ensures r * r <= Square(c) <==> r <= c
  {
    if r <= c {
      Larger(r, c);
    } else {
      Larger(c, r);
    }
  }

  lemma Larger(x: real, y: real)
    requires 0.0 <= x <= y
    ensures x * x <= y * y && (x < y ==> x * x < y * y)
  {
    var d := y - x;
    assert y * y == x * x + d * (x + y);
    assert d * (x + y) >= 0.0 && (d > 0.0 ==> d * (x + y) > 0.0);
  }
}
