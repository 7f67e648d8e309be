/**
 * The ranking `topItems(num)` performs over the frequency table, as a pure
 * specification of the Java loop: each table entry, taken in the HashMap's
 * iteration order, scans the result list from the front and OVERWRITES the
 * first slot whose occupant has a strictly lower smoothed ratio
 * (success + 1) / (fail + 1), or is appended when the first such slot is
 * the empty one just past the end (an empty slot compares as ratio 1).
 * Nothing is shifted, so an overwritten occupant drops out of the result.
 *
 * Ratios are compared exactly, by cross-multiplying naturals, instead of
 * by Java's double division.
 */
module Ranking {
  import opened FrequencyTable

  /** The smoothed ratio (success + 1) / (fail + 1) as an exact real. */
  function SmoothedRatio(c: Counts): (r: real)
    ensures r > 0.0
  {
    (c.success + 1) as real / (c.fail + 1) as real
  }

  /** `a`'s smoothed ratio is strictly below `b`'s. */
  predicate RatioBelow(a: Counts, b: Counts)
  {
    (a.success + 1) * (b.fail + 1) < (b.success + 1) * (a.fail + 1)
  }

  /** Cross-multiplying compares exactly what the divisions compare. */
  lemma {:induction false} RatioBelowIsRatioComparison(a: Counts, b: Counts)
    ensures RatioBelow(a, b) <==> SmoothedRatio(a) < SmoothedRatio(b)
  {
    var x, y := (a.success + 1) as real, (a.fail + 1) as real;
    var z, w := (b.success + 1) as real, (b.fail + 1) as real;
    var p, q := x / y, z / w;
    assert p * y == x && q * w == z;
    assert x * w == p * (y * w) && z * y == q * (y * w) by {
      assert x * w == (p * y) * w;
      assert z * y == (q * w) * y;
    }
    assert y * w > 0.0;
    assert (a.success + 1) * (b.fail + 1) < (b.success + 1) * (a.fail + 1) <==> x * w < z * y;
    if p < q {
      assert p * (y * w) < q * (y * w);
    } else {
      assert p * (y * w) >= q * (y * w);
    }
  }

  /** An entry beats an empty slot exactly when it has more successes than fails. */
  lemma {:induction false} BeatsEmptySlot(c: Counts)
    ensures RatioBelow(Unseen, c) <==> c.success > c.fail
  {
  }

  /**
   * The smoothed ratio of an absent token is 1, and a pair's ratio exceeds 1
   * exactly when it has more successes than fails.
   */
  lemma {:induction false} SmoothedAboveOne(c: Counts)
    ensures SmoothedRatio(Unseen) == 1.0
    ensures SmoothedRatio(c) > 1.0 <==> c.success > c.fail
  {
    RatioBelowIsRatioComparison(Unseen, c);
    BeatsEmptySlot(c);
  }

  lemma {:induction false} MulMonotone(x: int, y: int, k: nat)
    requires x < y && k > 0
    ensures x * k < y * k
    decreases k
  {
    if k > 1 {
      MulMonotone(x, y, k - 1);
      assert x * k == x * (k - 1) + x && y * k == y * (k - 1) + y;
    }
  }

  /** a/b < c/d and c/d < e/f give a/f < e/b, for positive denominators. */
  lemma {:induction false} CrossTransitive(a: int, b: int, c: int, d: int, e: int, f: int)
    requires b > 0 && d > 0 && f > 0
    requires a * d < c * b && c * f < e * d
    ensures a * f < e * b
  {
    MulMonotone(a * d, c * b, f);
    MulMonotone(c * f, e * d, b);
    assert (a * f) * d < (e * b) * d by {
      assert (a * d) * f == (a * f) * d;
      assert (c * b) * f == (c * f) * b;
      assert (e * d) * b == (e * b) * d;
    }
    if e * b <= a * f {
      if e * b < a * f {
        MulMonotone(e * b, a * f, d);
      }
      assert false;
    }
  }

  lemma {:induction false} RatioBelowTransitive(a: Counts, b: Counts, c: Counts)
    requires RatioBelow(a, b) && RatioBelow(b, c)
    ensures RatioBelow(a, c)
  {
    CrossTransitive(a.success + 1, a.fail + 1, b.success + 1, b.fail + 1, c.success + 1, c.fail + 1);
  }

  /** What slot `i` compares as: its occupant's counts, or (0, 0) when empty. */
  function SlotCounts<T(==)>(m: map<T, Counts>, top: seq<T>, i: nat): Counts
  {
    if i < |top| then Lookup(m, top[i]) else Unseen
  }

  /**
   * The inner `while` of `topItems` from slot `i` on, for the entry `key`:
   * the first slot below `num` whose occupant ranks strictly lower is
   * overwritten (or, past the end, `key` is appended); if there is none,
   * the list is unchanged.
   */
  function PlaceFrom<T(==)>(m: map<T, Counts>, top: seq<T>, key: T, num: nat, i: nat): seq<T>
    decreases num - i
  {
    if i >= num then top
    else if RatioBelow(SlotCounts(m, top, i), Lookup(m, key)) then
      if i < |top| then top[i := key] else top + [key]
    else PlaceFrom(m, top, key, num, i + 1)
  }

  /** The outer loop: every entry of `order` placed in turn into `top`. */
  function PlaceAll<T(==)>(m: map<T, Counts>, order: seq<T>, num: nat, top: seq<T>): seq<T>
    decreases |order|
  {
    if order == [] then top
    else PlaceAll(m, order[1..], num, PlaceFrom(m, top, order[0], num, 0))
  }

  /** What `topItems(num)` returns when the HashMap iterates in `order`. */
  function TopItems<T(==)>(m: map<T, Counts>, order: seq<T>, num: nat): seq<T>
  {
    PlaceAll(m, order, num, [])
  }

  /**
   * The shape `topItems` keeps: at most `num` distinct keys of the table,
   * each with more successes than fails, in non-increasing smoothed ratio.
   */
  ghost predicate Ranked<T>(m: map<T, Counts>, top: seq<T>, num: nat)
  {
    && |top| <= num
    && (forall i, j :: 0 <= i < j < |top| ==> top[i] != top[j])
    && (forall i :: 0 <= i < |top| ==> top[i] in m && RatioBelow(Unseen, m[top[i]]))
    && (forall i, j :: 0 <= i < j < |top| ==> !RatioBelow(m[top[i]], m[top[j]]))
  }

  lemma {:induction false} PlacePreservesRanked<T>(m: map<T, Counts>, top: seq<T>, key: T, num: nat, i: nat)
    requires Ranked(m, top, num) && key in m && key !in top
    requires forall p :: 0 <= p < i ==> !RatioBelow(SlotCounts(m, top, p), m[key])
    ensures Ranked(m, PlaceFrom(m, top, key, num, i), num)
    ensures forall x :: x in PlaceFrom(m, top, key, num, i) ==> x in top || x == key
    ensures |PlaceFrom(m, top, key, num, i)| >= |top|
    decreases num - i
  {
    var c := m[key];
    if i >= num {
    } else if RatioBelow(SlotCounts(m, top, i), c) {
      if i < |top| {
        var top' := top[i := key];
        assert RatioBelow(Unseen, c) by {
          RatioBelowTransitive(Unseen, m[top[i]], c);
        }
        forall p, q | 0 <= p < q < |top'|
          ensures !RatioBelow(m[top'[p]], m[top'[q]])
        {
          if q == i {
            assert SlotCounts(m, top, p) == m[top[p]];
          } else if p == i {
            if RatioBelow(c, m[top[q]]) {
              RatioBelowTransitive(m[top[i]], c, m[top[q]]);
            }
          }
        }
        forall x | x in top'
          ensures x in top || x == key
        {
          var p :| 0 <= p < |top'| && top'[p] == x;
          if p != i {
            assert x == top[p];
          }
        }
      } else {
        var top' := top + [key];
        assert RatioBelow(Unseen, c);
        forall p | 0 <= p < |top|
          ensures !RatioBelow(m[top[p]], c)
        {
          assert SlotCounts(m, top, p) == m[top[p]];
        }
        forall x | x in top'
          ensures x in top || x == key
        {
          var p :| 0 <= p < |top'| && top'[p] == x;
          if p < |top| {
            assert x == top[p];
          }
        }
      }
    } else {
      PlacePreservesRanked(m, top, key, num, i + 1);
    }
  }

  lemma {:induction false} PlaceAllRanked<T>(m: map<T, Counts>, order: seq<T>, num: nat, top: seq<T>)
    requires Ranked(m, top, num)
    requires forall i, j :: 0 <= i < j < |order| ==> order[i] != order[j]
    requires forall i :: 0 <= i < |order| ==> order[i] in m && order[i] !in top
    ensures Ranked(m, PlaceAll(m, order, num, top), num)
    ensures forall x :: x in PlaceAll(m, order, num, top) ==> x in top || x in order
    decreases |order|
  {
    if order != [] {
      var top' := PlaceFrom(m, top, order[0], num, 0);
      PlacePreservesRanked(m, top, order[0], num, 0);
      forall i | 0 <= i < |order[1..]|
        ensures order[1..][i] in m && order[1..][i] !in top'
      {
        assert order[1..][i] == order[i + 1];
      }
      PlaceAllRanked(m, order[1..], num, top');
    }
  }

  /** An entry that does not beat an empty slot is never placed. */
  lemma {:induction false} PlaceSkipsLosers<T>(m: map<T, Counts>, top: seq<T>, key: T, num: nat, i: nat)
    requires Ranked(m, top, num) && !RatioBelow(Unseen, Lookup(m, key))
    ensures PlaceFrom(m, top, key, num, i) == top
    decreases num - i
  {
    if i < num {
      if i < |top| && RatioBelow(m[top[i]], Lookup(m, key)) {
        RatioBelowTransitive(Unseen, m[top[i]], Lookup(m, key));
      }
      PlaceSkipsLosers(m, top, key, num, i + 1);
    }
  }

  lemma {:induction false} PlaceNeverShrinks<T>(m: map<T, Counts>, top: seq<T>, key: T, num: nat, i: nat)
    ensures |PlaceFrom(m, top, key, num, i)| >= |top|
    decreases num - i
  {
    if i < num && !RatioBelow(SlotCounts(m, top, i), Lookup(m, key)) {
      PlaceNeverShrinks(m, top, key, num, i + 1);
    }
  }

  lemma {:induction false} PlaceAllNeverShrinks<T>(m: map<T, Counts>, order: seq<T>, num: nat, top: seq<T>)
    ensures |PlaceAll(m, order, num, top)| >= |top|
    decreases |order|
  {
    if order != [] {
      PlaceNeverShrinks(m, top, order[0], num, 0);
      PlaceAllNeverShrinks(m, order[1..], num, PlaceFrom(m, top, order[0], num, 0));
    }
  }

  /**
   * Starting from an empty list, the result stays empty exactly when no
   * entry of `order` has more successes than fails.
   */
  lemma {:induction false} PlaceAllEmpty<T>(m: map<T, Counts>, order: seq<T>, num: nat)
    requires num > 0
    ensures PlaceAll(m, order, num, []) == [] <==>
            forall i :: 0 <= i < |order| ==> Lookup(m, order[i]).success <= Lookup(m, order[i]).fail
    decreases |order|
  {
    if order != [] {
      var c := Lookup(m, order[0]);
      BeatsEmptySlot(c);
      if RatioBelow(Unseen, c) {
        assert PlaceFrom(m, [], order[0], num, 0) == [order[0]];
        PlaceAllNeverShrinks(m, order[1..], num, [order[0]]);
      } else {
        PlaceSkipsLosers(m, [], order[0], num, 0);
        PlaceAllEmpty(m, order[1..], num);
        assert forall i :: 1 <= i < |order| ==> order[i] == order[1..][i - 1];
      }
    }
  }

  /**
   * What `topItems(num)` promises, for any HashMap iteration order: at most
   * `num` distinct keys of the table, each with more successes than fails,
   * in non-increasing smoothed ratio; and an empty result exactly when no
   * key has more successes than fails (in particular for an empty table).
   */
  lemma {:induction false} TopItemsRanked<T>(m: map<T, Counts>, order: seq<T>, num: nat)
    requires Enumerates(order, m) && num > 0
    ensures var r := TopItems(m, order, num);
      && |r| <= num
      && (forall i, j :: 0 <= i < j < |r| ==> r[i] != r[j])
      && (forall i :: 0 <= i < |r| ==> r[i] in m && m[r[i]].success > m[r[i]].fail)
      && (forall i, j :: 0 <= i < j < |r| ==> SmoothedRatio(m[r[j]]) <= SmoothedRatio(m[r[i]]))
      && (r == [] <==> forall k :: k in m ==> m[k].success <= m[k].fail)
  {
    var r := TopItems(m, order, num);
    PlaceAllRanked(m, order, num, []);
    forall i | 0 <= i < |r|
      ensures m[r[i]].success > m[r[i]].fail
    {
      BeatsEmptySlot(m[r[i]]);
    }
    forall i, j | 0 <= i < j < |r|
      ensures SmoothedRatio(m[r[j]]) <= SmoothedRatio(m[r[i]])
    {
      RatioBelowIsRatioComparison(m[r[i]], m[r[j]]);
    }
    PlaceAllEmpty(m, order, num);
    if r == [] {
      forall k | k in m
        ensures m[k].success <= m[k].fail
      {
        var i :| 0 <= i < |order| && order[i] == k;
      }
    }
  }

  /**
   * Overwriting instead of shifting loses entries: with ratios 3, 2 and 4
   * met in that order and `num = 2`, the result is ["c", "b"], which leaves
   * out "a" although "a" ranks above "b". The result is sorted, but it is
   * not the true top two.
   */
  lemma {:induction false} TopItemsIsNotTrueTopK()
    ensures var m := map["a" := Counts(2, 0), "b" := Counts(1, 0), "c" := Counts(3, 0)];
      && TopItems(m, ["a", "b", "c"], 2) == ["c", "b"]
      && RatioBelow(m["b"], m["a"])
  {
    var m := map["a" := Counts(2, 0), "b" := Counts(1, 0), "c" := Counts(3, 0)];
    var order := ["a", "b", "c"];
    assert PlaceFrom(m, [], "a", 2, 0) == ["a"];
    assert PlaceFrom(m, ["a"], "b", 2, 1) == ["a", "b"];
    assert PlaceFrom(m, ["a"], "b", 2, 0) == ["a", "b"];
    assert PlaceFrom(m, ["a", "b"], "c", 2, 0) == ["c", "b"];
    assert order[1..] == ["b", "c"] && order[1..][1..] == ["c"] && order[1..][1..][1..] == [];
    calc {
      TopItems(m, order, 2);
      PlaceAll(m, order, 2, []);
      PlaceAll(m, ["b", "c"], 2, ["a"]);
      PlaceAll(m, ["c"], 2, ["a", "b"]);
      PlaceAll(m, [], 2, ["c", "b"]);
    }
  }
}
