/**
 * `Perceptron1L<T>`: the mutable Naive Bayes model. Its table `rep` maps
 * each token to a (success, fail) pair and is an object of its own, so that
 * two models can share it (the loader constructor does); `succeedTotal` and
 * `failTotal` are the running totals, `success` and `fail` the two labels.
 *
 * The HashMap's iteration order is a parameter `order` of every operation
 * that walks the table, required to list each key exactly once.
 */
module Perceptrons {
  import opened FrequencyTable
  import Ranking
  import opened Inference
  import Decimal

  /** The `HashMap<T, int[]>` behind `rep`; one table can be shared by several models. */
  class CountTable<T(==)> {
    var entries: map<T, Counts>

    constructor ()
      ensures entries == map[]
    {
      entries := map[];
    }
  }

  class Perceptron1L<T(==)> {
    var rep: CountTable<T>
    var succeedTotal: nat
    var failTotal: nat
    var success: string
    var fail: string

    /** A fresh empty table, zero totals and the default labels. */
    constructor ()
      ensures fresh(rep) && rep.entries == map[]
      ensures succeedTotal == 0 && failTotal == 0
      ensures success == "Success" && fail == "Fail"
    {
      success := "Success";
      fail := "Fail";
      rep := new CountTable();
      succeedTotal := 0;
      failTotal := 0;
    }

    /** A fresh empty table, zero totals and the given labels. */
    constructor Named(successName: string, failName: string)
      ensures fresh(rep) && rep.entries == map[]
      ensures succeedTotal == 0 && failTotal == 0
      ensures success == successName && fail == failName
    {
      rep := new CountTable();
      success := successName;
      fail := failName;
      succeedTotal := 0;
      failTotal := 0;
    }

    /**
     * The given labels, the loader's totals, and the loader's own table
     * object: later changes through either model are seen by both.
     */
    constructor Load(successName: string, failName: string, loader: Perceptron1L<T>)
      ensures rep == loader.rep
      ensures succeedTotal == loader.succeedTotal && failTotal == loader.failTotal
      ensures success == successName && fail == failName
    {
      success := successName;
      fail := failName;
      rep := loader.GetRep();
      succeedTotal := loader.succeedTotal;
      failTotal := loader.failTotal;
    }

    /** Takes over the other model's labels, totals and (shared) table. */
    method TransferFrom(other: Perceptron1L<T>)
      modifies this
      ensures success == old(other.success) && fail == old(other.fail)
      ensures rep == old(other.rep)
      ensures succeedTotal == old(other.succeedTotal) && failTotal == old(other.failTotal)
    {
      success := other.success;
      fail := other.fail;
      rep := other.rep;
      succeedTotal := other.succeedTotal;
      failTotal := other.failTotal;
    }

    method SetSuccessAndFail(successName: string, failName: string)
      modifies this`success, this`fail
      ensures success == successName && fail == failName
    {
      success := successName;
      fail := failName;
    }

    /** The live table, not a copy. */
    function GetRep(): CountTable<T>
      reads this
    {
      rep
    }

    /** The number of tokens in the table; zero exactly when it is empty. */
    function Size(): (n: nat)
      reads this, rep
      ensures n == 0 <==> rep.entries == map[]
    {
      |rep.entries|
    }

    /**
     * Adds `(count1, count2)` to `name`'s pair, or inserts that pair when
     * `name` is new (see `AccumulateEffect` for what that means key by key).
     */
    method AddProb(name: T, count1: nat, count2: nat)
      modifies rep
      ensures rep.entries == Accumulate(old(rep.entries), name, Counts(count1, count2))
    {
      var counts := Counts(count1, count2);
      if name in rep.entries {
        var values := rep.entries[name];
        values := Counts(values.success + counts.success, values.fail + counts.fail);
        rep.entries := rep.entries[name := values];
      } else {
        rep.entries := rep.entries[name := counts];
      }
    }

    /** Credits every occurrence in `sample` to the counter `trueSuccess` selects. */
    method UpdateCounts(trueSuccess: bool, sample: seq<T>)
      modifies rep
      ensures rep.entries == Credit(old(rep.entries), sample, trueSuccess)
    {
      var i := 0;
      assert sample[i..] == sample;
      while i < |sample|
        invariant 0 <= i <= |sample|
        invariant Credit(rep.entries, sample[i..], trueSuccess) == Credit(old(rep.entries), sample, trueSuccess)
      {
        var before := rep.entries;
        var newArr := Counts(0, 0);
        if sample[i] in rep.entries {
          newArr := rep.entries[sample[i]];
          if trueSuccess {
            newArr := newArr.(success := newArr.success + 1);
          } else {
            newArr := newArr.(fail := newArr.fail + 1);
          }
          rep.entries := rep.entries[sample[i] := newArr];
        } else {
          if trueSuccess {
            newArr := newArr.(success := newArr.success + 1);
          } else {
            newArr := newArr.(fail := newArr.fail + 1);
          }
          rep.entries := rep.entries[sample[i] := newArr];
        }
        assert newArr == Bump(Lookup(before, sample[i]), trueSuccess, 1);
        assert rep.entries == Accumulate(before, sample[i], Unit(trueSuccess));
        CreditStep(before, sample, i, trueSuccess);
        i := i + 1;
      }
    }

    /** The score `formula` gives `arr` against the current table and totals. */
    method ScoreOf(formula: Formula, arr: seq<T>, order: seq<T>) returns (ratio: real)
      requires Enumerates(order, rep.entries)
      ensures ratio == Score(formula, rep.entries, order, arr, succeedTotal, failTotal)
      ensures ratio > 0.0
    {
      var counts := ContributionArray(formula, arr, order);
      ratio := MultiplyAll(counts);
      ScorePositive(formula, rep.entries, order, arr, succeedTotal, failTotal);
    }

    /** The `counts` array: entry `i` of `order` raised to its number of occurrences in `arr`. */
    method ContributionArray(formula: Formula, arr: seq<T>, order: seq<T>) returns (counts: array<real>)
      ensures fresh(counts)
      ensures counts[..] == Contributions(formula, rep.entries, order, arr, succeedTotal, failTotal)
    {
      counts := new real[|order|];
      var indexEntry := 0;
      while indexEntry < |order|
        invariant 0 <= indexEntry <= |order|
        invariant forall p :: 0 <= p < indexEntry ==>
          counts[p] == TokenFactor(formula, rep.entries, order[p], arr, succeedTotal, failTotal)
      {
        var key := order[indexEntry];
        var n := OccurrencesIn(arr, key);
        // `Math.pow`; the result is positive (`ScorePositive`), so the
        // warning printed for a negative factor is unreachable.
        counts[indexEntry] := Pow(Factor(formula, Lookup(rep.entries, key), succeedTotal, failTotal), n);
        indexEntry := indexEntry + 1;
      }
    }
    /** `ratio(arr)`: the score of `arr`; the table and the totals are left alone. */
    method Ratio(arr: seq<T>, order: seq<T>) returns (ratio: real)
      requires Enumerates(order, rep.entries)
      ensures ratio == Score(Inference, rep.entries, order, arr, succeedTotal, failTotal)
      ensures ratio > 0.0
    {
      ratio := ScoreOf(Inference, arr, order);
    }

    /** `success(arr)`: the score of `arr` is above 1. */
    method Success(arr: seq<T>, order: seq<T>) returns (verdict: bool)
      requires Enumerates(order, rep.entries)
      ensures verdict <==> Score(Inference, rep.entries, order, arr, succeedTotal, failTotal) > 1.0
    {
      var ratio := Ratio(arr, order);
      verdict := ratio > 1.0;
    }

    /**
     * `ratio(arr, success)`: scores `arr` against the table as it was, then
     * trains the table on `arr` with the true label. The totals are not
     * touched.
     */
    method RatioWithLabel(arr: seq<T>, isSuccess: bool, order: seq<T>) returns (ratio: real)
      requires Enumerates(order, rep.entries)
      modifies rep
      ensures ratio == Score(Online, old(rep.entries), order, arr, succeedTotal, failTotal)
      ensures rep.entries == OnlineTraining(old(rep.entries), arr, isSuccess)
    {
      ratio := ScoreOf(Online, arr, order);
      var newEntries: seq<T> := [];
      var i := 0;
      while i < |arr|
        invariant 0 <= i <= |arr|
        invariant newEntries == arr[..i]
      {
        // The test `rep.entrySet().contains(item)` compares a token with
        // the table's entries, never equal to it: every token is kept.
        newEntries := newEntries + [arr[i]];
        i := i + 1;
      }
      assert newEntries == arr;
      if |rep.entries| > 0 {
        UpdateCounts(isSuccess, arr);
      }
      var counted := rep.entries;
      var k := 0;
      assert newEntries[k..] == newEntries;
      while k < |newEntries|
        invariant 0 <= k <= |newEntries|
        invariant Credit(rep.entries, newEntries[k..], isSuccess) == Credit(counted, newEntries, isSuccess)
      {
        if isSuccess {
          AddProb(newEntries[k], 1, 0);
        } else {
          AddProb(newEntries[k], 0, 1);
        }
        assert newEntries[k..][1..] == newEntries[k + 1..];
        k := k + 1;
      }
    }

    /** `success(arr, success)`: the verdict of `ratio(arr, success)`, with its training. */
    method SuccessWithLabel(arr: seq<T>, isSuccess: bool, order: seq<T>) returns (verdict: bool)
      requires Enumerates(order, rep.entries)
      modifies rep
      ensures verdict <==> Score(Online, old(rep.entries), order, arr, succeedTotal, failTotal) > 1.0
      ensures rep.entries == OnlineTraining(old(rep.entries), arr, isSuccess)
    {
      var ratio := RatioWithLabel(arr, isSuccess, order);
      verdict := ratio > 1.0;
    }

    /**
     * Folds the table into the totals, crosswise as written: the fail
     * counts go to `succeedTotal` and the success counts to `failTotal`.
     * The table is not changed.
     */
    method UpdateTotal(order: seq<T>)
      requires Enumerates(order, rep.entries)
      modifies this`succeedTotal, this`failTotal
      ensures succeedTotal == old(succeedTotal) + FailSum(rep.entries, order)
      ensures failTotal == old(failTotal) + SuccessSum(rep.entries, order)
    {
      var j := 0;
      assert order[j..] == order;
      while j < |order|
        invariant 0 <= j <= |order|
        invariant succeedTotal + FailSum(rep.entries, order[j..]) == old(succeedTotal) + FailSum(rep.entries, order)
        invariant failTotal + SuccessSum(rep.entries, order[j..]) == old(failTotal) + SuccessSum(rep.entries, order)
      {
        var value := rep.entries[order[j]];
        succeedTotal := succeedTotal + value.fail;
        failTotal := failTotal + value.success;
        assert order[j..][1..] == order[j + 1..];
        j := j + 1;
      }
    }

    /**
     * `getItemRatio(name)`: (s + 1) / (f + 1) for a present token, and
     * (1 + 1) / (1 + 1) = 1 for an absent one. It is above 1 exactly when
     * the token is present with more successes than fails.
     */
    function GetItemRatio(name: T): (r: real)
      reads this, rep
      ensures r == Ranking.SmoothedRatio(Lookup(rep.entries, name))
      ensures name !in rep.entries ==> r == 1.0
      ensures r > 1.0 <==> name in rep.entries && rep.entries[name].success > rep.entries[name].fail
    {
      var n1 := if name in rep.entries then rep.entries[name].success as real else 1.0;
      var n2 := if name in rep.entries then rep.entries[name].fail as real else 1.0;
      Ranking.SmoothedAboveOne(Lookup(rep.entries, name));
      (n1 + 1.0) / (n2 + 1.0)
    }

    /**
     * `topItems(num)`: each entry, in iteration order, scans the list from
     * the front and overwrites the first slot below `num` whose occupant
     * (or, past the end, the empty pair) has a strictly lower ratio.
     */
    method TopItems(num: nat, order: seq<T>) returns (top: seq<T>)
      requires num > 0 && Enumerates(order, rep.entries)
      ensures top == Ranking.TopItems(rep.entries, order, num)
      ensures |top| <= num
      ensures forall i, j :: 0 <= i < j < |top| ==> top[i] != top[j]
      ensures forall i :: 0 <= i < |top| ==>
        top[i] in rep.entries && rep.entries[top[i]].success > rep.entries[top[i]].fail
      ensures forall i, j :: 0 <= i < j < |top| ==>
        Ranking.SmoothedRatio(rep.entries[top[j]]) <= Ranking.SmoothedRatio(rep.entries[top[i]])
      ensures top == [] <==> forall k :: k in rep.entries ==> rep.entries[k].success <= rep.entries[k].fail
    {
      top := [];
      var e := 0;
      assert order[e..] == order;
      while e < |order|
        invariant 0 <= e <= |order|
        invariant forall p :: 0 <= p < |top| ==> top[p] in rep.entries
        invariant Ranking.PlaceAll(rep.entries, order[e..], num, top) == Ranking.TopItems(rep.entries, order, num)
      {
        var key := order[e];
        var c := rep.entries[key];
        ghost var start := top;
        var i := 0;
        var entered := false;
        while !entered && i < num
          invariant 0 <= i <= num
          invariant forall p :: 0 <= p < |top| ==> top[p] in rep.entries
          invariant !entered ==> top == start
          invariant !entered ==>
            Ranking.PlaceFrom(rep.entries, start, key, num, i) == Ranking.PlaceFrom(rep.entries, start, key, num, 0)
          invariant !entered && i > |top| ==> !Ranking.RatioBelow(Unseen, c)
          invariant entered ==> top == Ranking.PlaceFrom(rep.entries, start, key, num, 0)
        {
          var compared := Counts(0, 0);
          if |top| > i {
            compared := rep.entries[top[i]];
          }
          if Ranking.RatioBelow(compared, c) {
            if |top| > i {
              top := top[i := key];
            } else {
              assert i == |top|;
              top := top[..i] + [key] + top[i..];
              assert top == start + [key];
            }
            entered := true;
          }
          i := i + 1;
        }
        assert order[e..][1..] == order[e + 1..];
        e := e + 1;
      }
      assert order[e..] == [];
      Ranking.TopItemsRanked(rep.entries, order, num);
    }

    /**
     * `toString()`: "{", then `key(s, f)` for each entry in iteration order
     * separated by ",", then "}"; an empty table gives "{}". `keyText` is
     * the key type's `toString`.
     */
    method ToString(order: seq<T>, keyText: T -> string) returns (s: string)
      requires Enumerates(order, rep.entries)
      ensures s == "{" + JoinEntries(rep.entries, order, keyText) + "}"
      ensures s == "{}" <==> rep.entries == map[]
    {
      s := "{";
      var j := 0;
      assert order[j..] == order;
      while j < |order|
        invariant 0 <= j <= |order|
        invariant s + EntriesWithCommas(rep.entries, order[j..], keyText)
               == "{" + EntriesWithCommas(rep.entries, order, keyText)
      {
        var key := order[j];
        var value := rep.entries[key];
        ghost var before := s;
        s := s + keyText(key);
        s := s + ("(" + Decimal.NatText(value.success) + ", " + Decimal.NatText(value.fail) + "),");
        assert order[j..][0] == key && order[j..][1..] == order[j + 1..];
        AppendEntry(before, keyText(key), "(" + Decimal.NatText(value.success) + ", " + Decimal.NatText(value.fail),
                    EntriesWithCommas(rep.entries, order[j + 1..], keyText));
        j := j + 1;
      }
      assert order[j..] == [];
      ghost var written := s;
      if |rep.entries| > 0 {
        s := s[..|s| - 1];
      }
      s := s + "}";
      CloseEntries(rep.entries, order, keyText, written, s);
    }
  }

  /**
   * After the loop: dropping the trailing comma of a non-empty list and
   * closing the brace gives the comma-separated list in braces, and "{}"
   * is the text of exactly the empty table.
   */
  lemma {:induction false} CloseEntries<T>(m: map<T, Counts>, order: seq<T>, keyText: T -> string,
                                           written: string, s: string)
    requires Enumerates(order, m)
    requires written == "{" + EntriesWithCommas(m, order, keyText)
    requires s == (if |m| > 0 then written[..|written| - 1] else written) + "}"
    ensures s == "{" + JoinEntries(m, order, keyText) + "}"
    ensures s == "{}" <==> m == map[]
  {
    JoinEntriesEmpty(m, order, keyText);
    assert order != [] ==> order[0] in m;
    if |m| > 0 {
      assert order != [] by {
        var k :| k in m;
      }
      CommasThenStrip(m, order, keyText);
      assert written == ("{" + JoinEntries(m, order, keyText)) + ",";
    }
    assert s == "{}" <==> JoinEntries(m, order, keyText) == "" by {
      assert s == "{" + JoinEntries(m, order, keyText) + "}";
      if s == "{}" {
        assert |JoinEntries(m, order, keyText)| == 0;
      }
    }
  }

  /** The inner loop of `ratio`: how many items of `arr` equal `key`. */
  method OccurrencesIn<T(==)>(arr: seq<T>, key: T) returns (n: nat)
    ensures n == Occurrences(arr, key)
  {
    n := 0;
    var k := 0;
    assert arr[k..] == arr;
    while k < |arr|
      invariant 0 <= k <= |arr|
      invariant n + Occurrences(arr[k..], key) == Occurrences(arr, key)
    {
      if key == arr[k] {
        n := n + 1;
      }
      assert arr[k..][1..] == arr[k + 1..];
      k := k + 1;
    }
  }

  /** The product loop of `ratio`: 1 times every element of `counts`, left to right. */
  method MultiplyAll(counts: array<real>) returns (ratio: real)
    ensures ratio == Product(counts[..], 1.0)
  {
    ghost var fs := counts[..];
    ratio := 1.0;
    var j := 0;
    assert fs[j..] == fs;
    while j < counts.Length
      invariant 0 <= j <= counts.Length
      invariant Product(fs[j..], ratio) == Product(fs, 1.0)
    {
      ProductStep(fs, ratio, j);
      ratio := ratio * counts[j];
      j := j + 1;
    }
    assert fs[j..] == [];
  }

  /** The text `toString` writes for one entry: `key(s, f)`. */
  function EntryText<T>(key: T, c: Counts, keyText: T -> string): string
  {
    keyText(key) + CountsText(c)
  }

  function CountsText(c: Counts): string
  {
    "(" + Decimal.NatText(c.success) + ", " + Decimal.NatText(c.fail) + ")"
  }

  /** The loop's two appends for one entry, regrouped as entry, comma, rest. */
  lemma AppendEntry(s: string, key: string, counts: string, rest: string)
    ensures s + (key + (counts + ")") + "," + rest) == s + key + (counts + "),") + rest
  {
  }

  /** The entries of `order`, each followed by a comma, as the loop writes them. */
  function EntriesWithCommas<T(==)>(m: map<T, Counts>, order: seq<T>, keyText: T -> string): string
    decreases |order|
  {
    if order == [] then ""
    else EntryText(order[0], Lookup(m, order[0]), keyText) + "," + EntriesWithCommas(m, order[1..], keyText)
  }

  /** The entries of `order` separated by commas. */
  function JoinEntries<T(==)>(m: map<T, Counts>, order: seq<T>, keyText: T -> string): string
    decreases |order|
  {
    if order == [] then ""
    else if |order| == 1 then EntryText(order[0], Lookup(m, order[0]), keyText)
    else EntryText(order[0], Lookup(m, order[0]), keyText) + "," + JoinEntries(m, order[1..], keyText)
  }

  /** Dropping the last comma of the loop's text leaves the comma-separated list. */
  lemma {:induction false} CommasThenStrip<T>(m: map<T, Counts>, order: seq<T>, keyText: T -> string)
    requires order != []
    ensures EntriesWithCommas(m, order, keyText) == JoinEntries(m, order, keyText) + ","
    decreases |order|
  {
    if |order| > 1 {
      CommasThenStrip(m, order[1..], keyText);
    } else {
      assert order[1..] == [];
    }
  }

  /** The list is empty only for no entries: each entry's text holds a "(". */
  lemma {:induction false} JoinEntriesEmpty<T>(m: map<T, Counts>, order: seq<T>, keyText: T -> string)
    ensures JoinEntries(m, order, keyText) == "" <==> order == []
  {
    if order != [] {
      var head := EntryText(order[0], Lookup(m, order[0]), keyText);
      assert head[|keyText(order[0])|] == '(';
      if |order| > 1 {
        var j := JoinEntries(m, order[1..], keyText);
        assert |head + "," + j| >= |head|;
      }
    }
  }

  /**
   * What `ratio(arr, success)` leaves in the table. The `entrySet` test
   * never matches a token, so every token of `arr` is added once more after
   * `updateCounts` has counted it, which runs only on a non-empty table.
   */
  function OnlineTraining<T(==)>(m: map<T, Counts>, arr: seq<T>, isSuccess: bool): map<T, Counts>
  {
    var counted := if |m| > 0 then Credit(m, arr, isSuccess) else m;
    Credit(counted, arr, isSuccess)
  }

  /**
   * Token by token: on a non-empty table each occurrence in `arr` raises
   * the labelled counter by 2, on an empty one by 1; the other counter and
   * every token not in `arr` stay as they were.
   */
  lemma {:induction false} OnlineTrainingAt<T>(m: map<T, Counts>, arr: seq<T>, isSuccess: bool, k: T)
    ensures k in OnlineTraining(m, arr, isSuccess) <==> k in m || k in arr
    ensures k in m || k in arr ==>
      OnlineTraining(m, arr, isSuccess)[k]
        == Bump(Lookup(m, k), isSuccess, (if |m| > 0 then 2 else 1) * Occurrences(arr, k))
    ensures k !in arr && k in m ==> OnlineTraining(m, arr, isSuccess)[k] == m[k]
  {
    if |m| > 0 {
      CreditTwiceAt(m, arr, isSuccess, k);
    } else {
      CreditAt(m, arr, isSuccess, k);
    }
    if k !in arr {
      OccurrencesAbsent(arr, k);
    }
  }

  /**
   * `updateTotal` accumulates: run twice, it adds the sums twice, so when
   * some token has a fail count the second run raises `succeedTotal` again
   * instead of leaving it.
   */
  method UpdateTotalTwice<T(==)>(p: Perceptron1L<T>, order: seq<T>)
    requires Enumerates(order, p.rep.entries)
    modifies p`succeedTotal, p`failTotal
    ensures p.succeedTotal == old(p.succeedTotal) + 2 * FailSum(p.rep.entries, order)
    ensures p.failTotal == old(p.failTotal) + 2 * SuccessSum(p.rep.entries, order)
    ensures (exists k :: k in p.rep.entries && p.rep.entries[k].fail > 0) ==>
      p.succeedTotal > old(p.succeedTotal) + FailSum(p.rep.entries, order)
  {
    p.UpdateTotal(order);
    p.UpdateTotal(order);
    if exists k :: k in p.rep.entries && p.rep.entries[k].fail > 0 {
      var k :| k in p.rep.entries && p.rep.entries[k].fail > 0;
      FailSumPositive(p.rep.entries, order, k);
    }
  }

  /**
   * A model loaded from `loader` shares its table: a count added through
   * the loaded model is visible in the loader.
   */
  method AddThroughLoaded<T(==)>(loader: Perceptron1L<T>, name: T, count1: nat, count2: nat)
    returns (loaded: Perceptron1L<T>)
    modifies loader.rep
    ensures fresh(loaded) && loaded.rep == loader.rep
    ensures loader.rep.entries == Accumulate(old(loader.rep.entries), name, Counts(count1, count2))
  {
    loaded := new Perceptron1L.Load(loader.success, loader.fail, loader);
    loaded.AddProb(name, count1, count2);
  }
}
