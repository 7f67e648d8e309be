/**
 * The two Naive Bayes scores of `Perceptron1L`, over exact reals instead of
 * doubles. Both multiply, over the table's entries in iteration order, one
 * per-token factor raised to the number of times the token occurs in the
 * input; they differ in how that factor is bracketed:
 *
 *   `ratio(arr)`          ((s + 1) / (st + 1)) / ((f + 1) / (ft + 1))
 *   `ratio(arr, success)` (s + 1 / (st + 1)) / (f + 1 / (ft + 1))
 *
 * where (s, f) is the token's pair and (st, ft) the model's two totals.
 * Tokens of the input that are not in the table contribute nothing.
 */
module Inference {
  import opened FrequencyTable
  import Ranking

  /** Which of the two scores: `ratio(arr)` or the one `ratio(arr, success)` returns. */
  datatype Formula = Inference | Online

  /** `Math.pow(x, n)` for a natural exponent. */
  function Pow(x: real, n: nat): real
  {
    if n == 0 then 1.0 else x * Pow(x, n - 1)
  }

  lemma {:induction false} PowPositive(x: real, n: nat)
    requires x > 0.0
    ensures Pow(x, n) > 0.0
  {
    if n > 0 {
      PowPositive(x, n - 1);
    }
  }

  lemma MulPositive(a: real, b: real)
    requires a > 0.0 && b > 0.0
    ensures a * b > 0.0
  {
  }

  /** One token's factor under `formula`, given the model's totals. */
  function Factor(formula: Formula, c: Counts, succeedTotal: nat, failTotal: nat): (r: real)
    ensures r > 0.0
  {
    var s, f := c.success as real, c.fail as real;
    var st, ft := (succeedTotal + 1) as real, (failTotal + 1) as real;
    match formula
    case Inference => ((s + 1.0) / st) / ((f + 1.0) / ft)
    case Online => (s + 1.0 / st) / (f + 1.0 / ft)
  }

  /** What entry `key` contributes: its factor to the power of its occurrences in `arr`. */
  function TokenFactor<T(==)>(formula: Formula, m: map<T, Counts>, key: T, arr: seq<T>,
                              succeedTotal: nat, failTotal: nat): (r: real)
    ensures r > 0.0
  {
    PowPositive(Factor(formula, Lookup(m, key), succeedTotal, failTotal), Occurrences(arr, key));
    Pow(Factor(formula, Lookup(m, key), succeedTotal, failTotal), Occurrences(arr, key))
  }

  /** The contributions of the entries of `order`, in iteration order: the `counts` array. */
  function Contributions<T(==)>(formula: Formula, m: map<T, Counts>, order: seq<T>, arr: seq<T>,
                                succeedTotal: nat, failTotal: nat): (fs: seq<real>)
    ensures |fs| == |order|
    ensures forall i :: 0 <= i < |order| ==> fs[i] == TokenFactor(formula, m, order[i], arr, succeedTotal, failTotal)
  {
    seq(|order|, i requires 0 <= i < |order| => TokenFactor(formula, m, order[i], arr, succeedTotal, failTotal))
  }

  /** The running product the Java loop keeps: `acc` times `fs`, multiplied left to right. */
  function Product(fs: seq<real>, acc: real): real
    decreases |fs|
  {
    if fs == [] then acc else Product(fs[1..], acc * fs[0])
  }

  /** The score of `arr`: the product of every entry's contribution, starting from 1. */
  function Score<T(==)>(formula: Formula, m: map<T, Counts>, order: seq<T>, arr: seq<T>,
                        succeedTotal: nat, failTotal: nat): real
  {
    Product(Contributions(formula, m, order, arr, succeedTotal, failTotal), 1.0)
  }

  /** The product from position `j` on: the factor at `j`, then the rest. */
  lemma {:induction false} ProductStep(fs: seq<real>, acc: real, j: nat)
    requires j < |fs|
    ensures Product(fs[j..], acc) == Product(fs[j + 1..], acc * fs[j])
  {
    assert fs[j..][0] == fs[j];
    assert fs[j..][1..] == fs[j + 1..];
  }

  lemma {:induction false} ProductPositive(fs: seq<real>, acc: real)
    requires acc > 0.0 && forall i :: 0 <= i < |fs| ==> fs[i] > 0.0
    ensures Product(fs, acc) > 0.0
    decreases |fs|
  {
    if fs != [] {
      MulPositive(acc, fs[0]);
      ProductPositive(fs[1..], acc * fs[0]);
    }
  }

  lemma {:induction false} ProductOfOnes(fs: seq<real>, acc: real)
    requires forall i :: 0 <= i < |fs| ==> fs[i] == 1.0
    ensures Product(fs, acc) == acc
    decreases |fs|
  {
    if fs != [] {
      ProductOfOnes(fs[1..], acc * fs[0]);
    }
  }

  /**
   * Every score is positive, so the "Word fail" warning `ratio(arr)` prints
   * for a negative factor can never fire.
   */
  lemma {:induction false} ScorePositive<T>(formula: Formula, m: map<T, Counts>, order: seq<T>, arr: seq<T>,
                                            succeedTotal: nat, failTotal: nat)
    ensures Score(formula, m, order, arr, succeedTotal, failTotal) > 0.0
  {
    ProductPositive(Contributions(formula, m, order, arr, succeedTotal, failTotal), 1.0);
  }

  /**
   * Input none of whose tokens is in the table scores exactly 1 (in
   * particular the empty input), whatever the counts and totals.
   */
  lemma {:induction false} ScoreOfUnknownTokens<T>(formula: Formula, m: map<T, Counts>, order: seq<T>, arr: seq<T>,
                                                   succeedTotal: nat, failTotal: nat)
    requires forall i :: 0 <= i < |order| ==> order[i] !in arr
    ensures Score(formula, m, order, arr, succeedTotal, failTotal) == 1.0
  {
    var fs := Contributions(formula, m, order, arr, succeedTotal, failTotal);
    forall i | 0 <= i < |order|
      ensures fs[i] == 1.0
    {
      OccurrencesAbsent(arr, order[i]);
    }
    ProductOfOnes(fs, 1.0);
  }

  lemma {:induction false} OccurrencesAppendOther<T>(s: seq<T>, x: T, k: T)
    requires x != k
    ensures Occurrences(s + [x], k) == Occurrences(s, k)
    decreases |s|
  {
    if s == [] {
      assert [x][1..] == [];
    } else {
      assert (s + [x])[1..] == s[1..] + [x];
      OccurrencesAppendOther(s[1..], x, k);
    }
  }

  /** A token that is not in the table does not change either score. */
  lemma {:induction false} UnknownTokenIgnored<T>(formula: Formula, m: map<T, Counts>, order: seq<T>, arr: seq<T>,
                                                  x: T, succeedTotal: nat, failTotal: nat)
    requires x !in order
    ensures Score(formula, m, order, arr + [x], succeedTotal, failTotal)
         == Score(formula, m, order, arr, succeedTotal, failTotal)
  {
    var with := Contributions(formula, m, order, arr + [x], succeedTotal, failTotal);
    var without := Contributions(formula, m, order, arr, succeedTotal, failTotal);
    forall i | 0 <= i < |order|
      ensures with[i] == without[i]
    {
      OccurrencesAppendOther(arr, x, order[i]);
    }
    assert with == without;
  }

  /**
   * With equal totals, the `ratio(arr)` factor is exactly the smoothed
   * ratio (s + 1) / (f + 1) that `getItemRatio` and `topItems` use.
   */
  lemma {:induction false} BalancedFactorIsSmoothedRatio(c: Counts, total: nat)
    ensures Factor(Inference, c, total, total) == Ranking.SmoothedRatio(c)
  {
    var s, f, t := (c.success + 1) as real, (c.fail + 1) as real, (total + 1) as real;
    assert (s / t) / (f / t) == s / f by {
      assert (s / t) * t == s;
      assert (f / t) * t == f;
      assert ((s / t) / (f / t)) * f == s / t * t by {
        assert ((s / t) / (f / t)) * (f / t) == s / t;
      }
    }
  }

  /**
   * The bracketing matters: for a token seen once as a success, with both
   * totals 1, `ratio(arr)` uses the factor 2 and `ratio(arr, success)` 3.
   */
  lemma {:induction false} FormulasDiffer()
    ensures Factor(Inference, Counts(1, 0), 1, 1) == 2.0
    ensures Factor(Online, Counts(1, 0), 1, 1) == 3.0
  {
    assert (1.0 + 1.0 / 2.0) / (0.0 + 1.0 / 2.0) == 3.0;
    assert ((1.0 + 1.0) / 2.0) / ((0.0 + 1.0) / 2.0) == 2.0;
  }

  /** The product of `g` over the keys `ks`: the plain mathematical product. */
  function KeyProd<T>(g: T -> real, ks: seq<T>): real
    decreases |ks|
  {
    if ks == [] then 1.0 else g(ks[0]) * KeyProd(g, ks[1..])
  }

  lemma {:induction false} KeyProdSplit<T>(g: T -> real, a: seq<T>, b: seq<T>)
    ensures KeyProd(g, a + b) == KeyProd(g, a) * KeyProd(g, b)
    decreases |a|
  {
    if a == [] {
      assert a + b == b;
    } else {
      assert (a + b)[0] == a[0];
      assert (a + b)[1..] == a[1..] + b;
      KeyProdSplit(g, a[1..], b);
      assert g(a[0]) * (KeyProd(g, a[1..]) * KeyProd(g, b)) == (g(a[0]) * KeyProd(g, a[1..])) * KeyProd(g, b);
    }
  }

  /** Taking one key out of the middle. */
  lemma {:induction false} KeyProdRemove<T>(g: T -> real, b: seq<T>, p: nat)
    requires p < |b|
    ensures KeyProd(g, b) == g(b[p]) * KeyProd(g, b[..p] + b[p + 1..])
  {
    var x, y := b[..p], b[p + 1..];
    var v, px, py := g(b[p]), KeyProd(g, x), KeyProd(g, y);
    assert b == x + ([b[p]] + y);
    assert ([b[p]] + y)[0] == b[p] && ([b[p]] + y)[1..] == y;
    assert KeyProd(g, [b[p]] + y) == v * py;
    KeyProdSplit(g, x, [b[p]] + y);
    KeyProdSplit(g, x, y);
    Rotate(px, v, py);
  }

  lemma Rotate(px: real, v: real, py: real)
    ensures px * (v * py) == v * (px * py)
  {
  }

  /** The product over two orderings of the same keys agrees. */
  lemma {:induction false} KeyProdOfPermutation<T>(g: T -> real, a: seq<T>, b: seq<T>)
    requires multiset(a) == multiset(b)
    ensures KeyProd(g, a) == KeyProd(g, b)
    decreases |a|
  {
    if a != [] {
      assert a[0] in multiset(b) by {
        assert a[0] in multiset(a);
      }
      var p :| 0 <= p < |b| && b[p] == a[0];
      MultisetRemove(a, b, p);
      KeyProdOfPermutation(g, a[1..], b[..p] + b[p + 1..]);
      KeyProdStep(g, a, b, p);
    } else {
      assert |b| == |multiset(b)| == 0;
    }
  }

  lemma {:induction false} KeyProdStep<T>(g: T -> real, a: seq<T>, b: seq<T>, p: nat)
    requires a != [] && p < |b| && b[p] == a[0]
    requires KeyProd(g, a[1..]) == KeyProd(g, b[..p] + b[p + 1..])
    ensures KeyProd(g, a) == KeyProd(g, b)
  {
    KeyProdRemove(g, b, p);
  }

  /** The product of `fs`, multiplied from the back. */
  function Prod(fs: seq<real>): real
    decreases |fs|
  {
    if fs == [] then 1.0 else fs[0] * Prod(fs[1..])
  }

  /** The Java loop's running product is `acc` times the product of the factors. */
  lemma {:induction false} ProductIsProd(fs: seq<real>, acc: real)
    ensures Product(fs, acc) == acc * Prod(fs)
    decreases |fs|
  {
    if fs != [] {
      ProductIsProd(fs[1..], acc * fs[0]);
      assert (acc * fs[0]) * Prod(fs[1..]) == acc * (fs[0] * Prod(fs[1..]));
    }
  }

  /** `g` applied to every key, in order. */
  function Mapped<T>(g: T -> real, ks: seq<T>): (fs: seq<real>)
    ensures |fs| == |ks|
  {
    seq(|ks|, i requires 0 <= i < |ks| => g(ks[i]))
  }

  lemma {:induction false} ProdOfMapped<T>(g: T -> real, ks: seq<T>)
    ensures Prod(Mapped(g, ks)) == KeyProd(g, ks)
    decreases |ks|
  {
    if ks != [] {
      var fs := Mapped(g, ks);
      ProdOfMapped(g, ks[1..]);
      assert fs[1..] == Mapped(g, ks[1..]);
      assert fs[0] == g(ks[0]);
    }
  }

  /** The contributions are the token factors of the keys, in order. */
  lemma ContributionsMapped<T>(formula: Formula, m: map<T, Counts>, order: seq<T>, arr: seq<T>,
                               succeedTotal: nat, failTotal: nat)
    ensures Contributions(formula, m, order, arr, succeedTotal, failTotal)
         == Mapped(k => TokenFactor(formula, m, k, arr, succeedTotal, failTotal), order)
  {
  }

  /**
   * The score does not depend on the order in which the table is iterated:
   * exact multiplication is commutative. (With doubles, the rounding of
   * each step could still differ.)
   */
  lemma {:induction false} ScoreIgnoresOrder<T>(formula: Formula, m: map<T, Counts>, a: seq<T>, b: seq<T>, arr: seq<T>,
                                                succeedTotal: nat, failTotal: nat)
    requires Enumerates(a, m) && Enumerates(b, m)
    ensures Score(formula, m, a, arr, succeedTotal, failTotal) == Score(formula, m, b, arr, succeedTotal, failTotal)
  {
    EnumerationsArePermutations(m, a, b);
    var g := k => TokenFactor(formula, m, k, arr, succeedTotal, failTotal);
    ContributionsMapped(formula, m, a, arr, succeedTotal, failTotal);
    ContributionsMapped(formula, m, b, arr, succeedTotal, failTotal);
    ProdOfMapped(g, a);
    ProdOfMapped(g, b);
    KeyProdOfPermutation(g, a, b);
    ProductIsProd(Contributions(formula, m, a, arr, succeedTotal, failTotal), 1.0);
    ProductIsProd(Contributions(formula, m, b, arr, succeedTotal, failTotal), 1.0);
  }
}
