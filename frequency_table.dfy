/**
 * The value-level view of the Naive Bayes frequency table: per-token
 * success/fail counters, how `addProb` and the online-learning step change
 * them, and the sums `updateTotal` folds into the model's totals.
 *
 * The Java table is a `HashMap<T, int[]>` whose `int[2]` values hold
 * (success count, fail count). Here a table is a `map<T, Counts>`, and the
 * HashMap's iteration order is an explicit sequence of its keys
 * (`Enumerates`), since the model cannot know which order Java picks.
 */
module FrequencyTable {

  /** One token's observed history: `int[0]` successes, `int[1]` fails. */
  datatype Counts = Counts(success: nat, fail: nat)

  /** The pair a token that is not in the table stands for in comparisons. */
  const Unseen := Counts(0, 0)

  function Lookup<T(==)>(m: map<T, Counts>, k: T): Counts
  {
    if k in m then m[k] else Unseen
  }

  function Plus(c: Counts, d: Counts): Counts
  {
    Counts(c.success + d.success, c.fail + d.fail)
  }

  /** The counters one labelled occurrence adds: `(1, 0)` or `(0, 1)`. */
  function Unit(success: bool): Counts
  {
    if success then Counts(1, 0) else Counts(0, 1)
  }

  /** The table after `addProb(name, delta.success, delta.fail)`. */
  function Accumulate<T(==)>(m: map<T, Counts>, name: T, delta: Counts): map<T, Counts>
  {
    m[name := Counts(Lookup(m, name).success + delta.success, Lookup(m, name).fail + delta.fail)]
  }

  /**
   * `addProb` inserts an absent key with exactly the deltas, adds the
   * deltas to a present key's pair, leaves every other key alone, and grows
   * the table by one entry exactly when the key was absent.
   */
  lemma {:induction false} AccumulateEffect<T>(m: map<T, Counts>, name: T, delta: Counts)
    ensures Accumulate(m, name, delta).Keys == m.Keys + {name}
    ensures name in m ==> Accumulate(m, name, delta)[name] == Plus(m[name], delta)
    ensures name !in m ==> Accumulate(m, name, delta)[name] == delta
    ensures forall k :: k in m && k != name ==> Accumulate(m, name, delta)[k] == m[k]
    ensures |Accumulate(m, name, delta)| == if name in m then |m| else |m| + 1
  {
  }

  /** Two `addProb` calls on one token add up (their order does not matter). */
  lemma {:induction false} AccumulateTwice<T>(m: map<T, Counts>, name: T, d1: Counts, d2: Counts)
    ensures Accumulate(Accumulate(m, name, d1), name, d2)[name] == Plus(Plus(Lookup(m, name), d1), d2)
    ensures Accumulate(Accumulate(m, name, d1), name, d2) == Accumulate(m, name, Plus(d1, d2))
  {
  }

  /** How many times `x` occurs in `s`. */
  function Occurrences<T(==)>(s: seq<T>, x: T): nat
  {
    if s == [] then 0
    else (if s[0] == x then 1 else 0) + Occurrences(s[1..], x)
  }

  lemma {:induction false} OccurrencesAbsent<T>(s: seq<T>, x: T)
    requires x !in s
    ensures Occurrences(s, x) == 0
    decreases |s|
  {
    if s != [] {
      assert s == [s[0]] + s[1..];
      OccurrencesAbsent(s[1..], x);
    }
  }

  /** Raises the counter `success` selects by `n`, leaving the other one alone. */
  function Bump(c: Counts, success: bool, n: nat): Counts
  {
    if success then Counts(c.success + n, c.fail) else Counts(c.success, c.fail + n)
  }

  /**
   * One labelled training pass over `s`: its occurrences are taken in
   * order, each one as `addProb(token, 1, 0)` (or `(0, 1)`).
   */
  function Credit<T(==)>(m: map<T, Counts>, s: seq<T>, success: bool): map<T, Counts>
    decreases |s|
  {
    if s == [] then m
    else Credit(Accumulate(m, s[0], Unit(success)), s[1..], success)
  }

  /** A pass from position `i` on: the occurrence at `i`, then the rest. */
  lemma {:induction false} CreditStep<T>(m: map<T, Counts>, s: seq<T>, i: nat, success: bool)
    requires i < |s|
    ensures Credit(m, s[i..], success) == Credit(Accumulate(m, s[i], Unit(success)), s[i + 1..], success)
  {
    assert s[i..][0] == s[i];
    assert s[i..][1..] == s[i + 1..];
  }

  /**
   * What a pass does to each token: a token of `s` has its number of
   * occurrences added to the counter `success` selects (entering the table
   * at zero when new), the other counter is untouched, and a token not in
   * `s` keeps its entry or stays absent.
   */
  lemma {:induction false} CreditAt<T>(m: map<T, Counts>, s: seq<T>, success: bool, k: T)
    ensures k in Credit(m, s, success) <==> k in m || k in s
    ensures k in m || k in s ==>
      Credit(m, s, success)[k] == Bump(Lookup(m, k), success, Occurrences(s, k))
    decreases |s|
  {
    if s != [] {
      var m' := Accumulate(m, s[0], Unit(success));
      var r := Credit(m', s[1..], success);
      assert Credit(m, s, success) == r;
      CreditAt(m', s[1..], success, k);
      CreditFirstStep(m, s, success, k, r);
    }
  }

  /** The inductive step of `CreditAt`: the first occurrence, then the rest. */
  lemma {:induction false} CreditFirstStep<T>(m: map<T, Counts>, s: seq<T>, success: bool, k: T, r: map<T, Counts>)
    requires s != []
    requires
      var m' := Accumulate(m, s[0], Unit(success));
      && (k in r <==> k in m' || k in s[1..])
      && (k in m' || k in s[1..] ==> r[k] == Bump(Lookup(m', k), success, Occurrences(s[1..], k)))
    ensures k in r <==> k in m || k in s
    ensures k in m || k in s ==> r[k] == Bump(Lookup(m, k), success, Occurrences(s, k))
  {
    var m' := Accumulate(m, s[0], Unit(success));
    assert k in s <==> k == s[0] || k in s[1..] by {
      assert s == [s[0]] + s[1..];
    }
    var n := Occurrences(s[1..], k);
    assert Occurrences(s, k) == (if s[0] == k then 1 else 0) + n;
    if k == s[0] {
      if k !in m && k !in s[1..] {
        OccurrencesAbsent(s[1..], k);
      }
      assert Lookup(m', k) == Bump(Lookup(m, k), success, 1);
    } else {
      assert Lookup(m', k) == Lookup(m, k);
    }
  }

  /** A pass leaves every token outside `s` exactly as it was. */
  lemma {:induction false} CreditElsewhere<T>(m: map<T, Counts>, s: seq<T>, success: bool, k: T)
    requires k !in s
    ensures k in Credit(m, s, success) <==> k in m
    ensures k in m ==> Credit(m, s, success)[k] == m[k]
  {
    CreditAt(m, s, success, k);
    OccurrencesAbsent(s, k);
  }

  /** Two passes over the same tokens count every occurrence twice. */
  lemma {:induction false} CreditTwiceAt<T>(m: map<T, Counts>, s: seq<T>, success: bool, k: T)
    ensures k in Credit(Credit(m, s, success), s, success) <==> k in m || k in s
    ensures k in m || k in s ==>
      Credit(Credit(m, s, success), s, success)[k] == Bump(Lookup(m, k), success, 2 * Occurrences(s, k))
  {
    var once := Credit(m, s, success);
    CreditAt(m, s, success, k);
    CreditAt(once, s, success, k);
    BumpTwice(m, once, Credit(once, s, success), s, success, k);
  }

  lemma {:induction false} BumpTwice<T>(m: map<T, Counts>, once: map<T, Counts>, twice: map<T, Counts>,
                                        s: seq<T>, success: bool, k: T)
    requires k in once <==> k in m || k in s
    requires k in m || k in s ==> once[k] == Bump(Lookup(m, k), success, Occurrences(s, k))
    requires k in twice <==> k in once || k in s
    requires k in once || k in s ==> twice[k] == Bump(Lookup(once, k), success, Occurrences(s, k))
    ensures k in twice <==> k in m || k in s
    ensures k in m || k in s ==> twice[k] == Bump(Lookup(m, k), success, 2 * Occurrences(s, k))
  {
    if k !in m && k !in s {
      OccurrencesAbsent(s, k);
    }
  }

  /** `order` lists every key of `m` exactly once: a HashMap iteration order. */
  predicate Enumerates<T(==)>(order: seq<T>, m: map<T, Counts>)
  {
    && (forall i, j :: 0 <= i < j < |order| ==> order[i] != order[j])
    && (forall i :: 0 <= i < |order| ==> order[i] in m)
    && (forall k :: k in m ==> k in order)
  }

  /** Sum of the success counts of the tokens in `order`. */
  function SuccessSum<T(==)>(m: map<T, Counts>, order: seq<T>): nat
  {
    if order == [] then 0 else Lookup(m, order[0]).success + SuccessSum(m, order[1..])
  }

  /** Sum of the fail counts of the tokens in `order`. */
  function FailSum<T(==)>(m: map<T, Counts>, order: seq<T>): nat
  {
    if order == [] then 0 else Lookup(m, order[0]).fail + FailSum(m, order[1..])
  }

  lemma {:induction false} SumsSplit<T>(m: map<T, Counts>, a: seq<T>, b: seq<T>)
    ensures SuccessSum(m, a + b) == SuccessSum(m, a) + SuccessSum(m, b)
    ensures FailSum(m, a + b) == FailSum(m, a) + FailSum(m, b)
    decreases |a|
  {
    if a == [] {
      assert a + b == b;
    } else {
      assert (a + b)[1..] == a[1..] + b;
      SumsSplit(m, a[1..], b);
    }
  }

  /** Taking the same element out of two equal multisets keeps them equal. */
  lemma {:induction false} MultisetRemove<T>(a: seq<T>, b: seq<T>, p: nat)
    requires a != [] && p < |b| && b[p] == a[0] && multiset(a) == multiset(b)
    ensures multiset(a[1..]) == multiset(b[..p] + b[p + 1..])
  {
    var x := a[0];
    assert a == [x] + a[1..];
    assert b == b[..p] + [x] + b[p + 1..];
    forall y
      ensures multiset(a[1..])[y] == multiset(b[..p] + b[p + 1..])[y]
    {
      assert multiset(a)[y] == multiset([x])[y] + multiset(a[1..])[y];
      assert multiset(b)[y] == multiset(b[..p])[y] + multiset([x])[y] + multiset(b[p + 1..])[y];
    }
  }

  /** A sum is the element at `p` plus the sum without it. */
  lemma {:induction false} SumsRemove<T>(m: map<T, Counts>, b: seq<T>, p: nat)
    requires p < |b|
    ensures SuccessSum(m, b) == Lookup(m, b[p]).success + SuccessSum(m, b[..p] + b[p + 1..])
    ensures FailSum(m, b) == Lookup(m, b[p]).fail + FailSum(m, b[..p] + b[p + 1..])
  {
    assert b == (b[..p] + [b[p]]) + b[p + 1..];
    SumsSplit(m, b[..p] + [b[p]], b[p + 1..]);
    SumsSplit(m, b[..p], [b[p]]);
    SumsSplit(m, b[..p], b[p + 1..]);
    assert [b[p]][1..] == [];
  }

  /** Sums over two orderings of the same tokens agree. */
  lemma {:induction false} SumsOfPermutation<T>(m: map<T, Counts>, a: seq<T>, b: seq<T>)
    requires multiset(a) == multiset(b)
    ensures SuccessSum(m, a) == SuccessSum(m, b)
    ensures FailSum(m, a) == FailSum(m, b)
    decreases |a|
  {
    if a != [] {
      assert a[0] in multiset(b) by {
        assert a[0] in multiset(a);
      }
      var p :| 0 <= p < |b| && b[p] == a[0];
      MultisetRemove(a, b, p);
      SumsOfPermutation(m, a[1..], b[..p] + b[p + 1..]);
      SumsRemove(m, b, p);
    } else {
      assert |b| == |multiset(b)| == 0;
    }
  }

  lemma {:induction false} DistinctMultiset<T>(s: seq<T>)
    requires forall i, j :: 0 <= i < j < |s| ==> s[i] != s[j]
    ensures forall x :: multiset(s)[x] == if x in s then 1 else 0
  {
    if s != [] {
      assert s == [s[0]] + s[1..];
      DistinctMultiset(s[1..]);
    }
  }

  /** Any two HashMap iteration orders of one table are permutations of each other. */
  lemma {:induction false} EnumerationsArePermutations<T>(m: map<T, Counts>, a: seq<T>, b: seq<T>)
    requires Enumerates(a, m) && Enumerates(b, m)
    ensures multiset(a) == multiset(b)
  {
    DistinctMultiset(a);
    DistinctMultiset(b);
    forall x
      ensures multiset(a)[x] == multiset(b)[x]
    {
      assert x in a <==> x in m;
      assert x in b <==> x in m;
    }
  }

  /**
   * The totals `updateTotal` adds do not depend on the iteration order the
   * HashMap happens to use.
   */
  lemma {:induction false} SumsIgnoreOrder<T>(m: map<T, Counts>, a: seq<T>, b: seq<T>)
    requires Enumerates(a, m) && Enumerates(b, m)
    ensures SuccessSum(m, a) == SuccessSum(m, b)
    ensures FailSum(m, a) == FailSum(m, b)
  {
    EnumerationsArePermutations(m, a, b);
    SumsOfPermutation(m, a, b);
  }

  /**
   * A second `updateTotal` moves `succeedTotal` again whenever some token
   * has a fail count: the step accumulates rather than recomputes.
   */
  lemma {:induction false} FailSumPositive<T>(m: map<T, Counts>, order: seq<T>, k: T)
    requires k in order && Lookup(m, k).fail > 0
    ensures FailSum(m, order) > 0
    decreases |order|
  {
    if order[0] != k {
      assert order == [order[0]] + order[1..];
      FailSumPositive(m, order[1..], k);
    }
  }

  /** The mirror image for `failTotal` and the success counts. */
  lemma {:induction false} SuccessSumPositive<T>(m: map<T, Counts>, order: seq<T>, k: T)
    requires k in order && Lookup(m, k).success > 0
    ensures SuccessSum(m, order) > 0
    decreases |order|
  {
    if order[0] != k {
      assert order == [order[0]] + order[1..];
      SuccessSumPositive(m, order[1..], k);
    }
  }
}
