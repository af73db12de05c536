/** getUniqueRandomNumbers: draw integers in [min, max] until `count` distinct
    ones have been seen, and return them in the order they were first drawn
    (the insertion order of a JavaScript Set).

    `Math.random` is replaced by a finite oracle: the sequence of values it
    returns, as exact reals in [0, 1). When the oracle runs out before `count`
    distinct values appear the model answers None; the source would keep
    drawing. */
module Sampler {
  import opened Wrappers
  import opened Catalog

  /** One iteration's draw: Math.floor(u * (max - min + 1)) + min. */
  function Draw(u: real, min: int, max: int): (v: int)
    ensures 0.0 <= u < 1.0 && min <= max ==> min <= v <= max
  {
    var k := max - min + 1;
    DrawBounds(u, k);
    (u * k as real).Floor + min
  }

  lemma DrawBounds(u: real, k: int)
    ensures 0.0 <= u < 1.0 && k >= 1 ==> 0 <= (u * k as real).Floor < k
  {
    if 0.0 <= u < 1.0 && k >= 1 {
      assert 0.0 <= u * k as real < k as real;
    }
  }

  /** Every oracle value is one Math.random can return. */
  predicate UnitInterval(randoms: seq<real>) {
    forall i :: 0 <= i < |randoms| ==> 0.0 <= randoms[i] < 1.0
  }

  /** The integers the oracle values map to, in draw order. */
  function Draws(randoms: seq<real>, min: int, max: int): (ds: seq<int>)
    ensures |ds| == |randoms|
    ensures forall i :: 0 <= i < |randoms| ==> ds[i] == Draw(randoms[i], min, max)
  {
    seq(|randoms|, i requires 0 <= i < |randoms| => Draw(randoms[i], min, max))
  }

  /** Reference definition: the distinct values of `s` in order of first
      occurrence, i.e. what `[...set]` yields after adding `s` one by one. */
  function FirstOccurrences(s: seq<int>): seq<int>
  {
    if |s| == 0 then []
    else
      var p := FirstOccurrences(s[..|s| - 1]);
      if s[|s| - 1] in p then p else p + [s[|s| - 1]]
  }

  lemma {:induction false} FirstOccurrencesFacts(s: seq<int>)
    ensures Distinct(FirstOccurrences(s))
    ensures forall x :: x in FirstOccurrences(s) <==> x in s
  {
    if |s| > 0 {
      FirstOccurrencesFacts(s[..|s| - 1]);
      assert s == s[..|s| - 1] + [s[|s| - 1]];
    }
  }

  /** Adding more draws only extends the first-occurrence list. */
  lemma {:induction false} FirstOccurrencesPrefix(p: seq<int>, q: seq<int>)
    ensures FirstOccurrences(p) <= FirstOccurrences(p + q)
    decreases |q|
  {
    if |q| == 0 {
      assert p + q == p;
    } else {
      var q' := q[..|q| - 1];
      FirstOccurrencesPrefix(p, q');
      assert (p + q)[..|p + q| - 1] == p + q';
      assert FirstOccurrences(p + q') <= FirstOccurrences(p + q);
    }
  }

  /** The loop `while (numbers.size < count) numbers.add(draw)`, where
      `numbers` holds the values added so far in insertion order. */
  function Fill(count: nat, min: int, max: int, numbers: seq<int>, randoms: seq<real>): (r: Option<seq<int>>)
    ensures r.Some? ==> numbers <= r.value
    ensures r.Some? && |numbers| <= count ==> |r.value| == count
    ensures r.Some? && Distinct(numbers) ==> Distinct(r.value)
    ensures |numbers| + |randoms| < count ==> r.None?
    decreases |randoms|
  {
    if |numbers| >= count then Some(numbers)
    else if |randoms| == 0 then None
    else
      var v := Draw(randoms[0], min, max);
      Fill(count, min, max, if v in numbers then numbers else numbers + [v], randoms[1..])
  }

  /** Started from the first occurrences of the draws `past`, the loop returns
      the first `count` first occurrences of all draws, if there are that many. */
  lemma {:induction false} FillIsFirstOccurrences(count: nat, min: int, max: int, past: seq<int>, randoms: seq<real>)
    requires |FirstOccurrences(past)| <= count
    ensures var all := FirstOccurrences(past + Draws(randoms, min, max));
            Fill(count, min, max, FirstOccurrences(past), randoms)
              == if |all| >= count then Some(all[..count]) else None
    decreases |randoms|
  {
    var numbers := FirstOccurrences(past);
    var all := FirstOccurrences(past + Draws(randoms, min, max));
    FirstOccurrencesPrefix(past, Draws(randoms, min, max));
    if |numbers| >= count {
      assert all[..count] == numbers;
    } else if |randoms| == 0 {
      assert past + Draws(randoms, min, max) == past;
    } else {
      var v := Draw(randoms[0], min, max);
      var past' := past + [v];
      assert past'[..|past'| - 1] == past;
      assert FirstOccurrences(past') == if v in numbers then numbers else numbers + [v];
      assert past' + Draws(randoms[1..], min, max) == past + Draws(randoms, min, max);
      FillIsFirstOccurrences(count, min, max, past', randoms[1..]);
    }
  }

  /** getUniqueRandomNumbers(count, min, max) with the oracle `randoms`. */
  function GetUniqueRandomNumbers(count: nat, min: int, max: int, randoms: seq<real>): (r: Option<seq<int>>)
    ensures var all := FirstOccurrences(Draws(randoms, min, max));
            r == if |all| >= count then Some(all[..count]) else None
    ensures r.Some? ==> |r.value| == count && Distinct(r.value)
    ensures r.Some? ==> forall x :: x in r.value ==> x in Draws(randoms, min, max)
    ensures r.Some? && UnitInterval(randoms) && min <= max ==>
              forall i :: 0 <= i < |r.value| ==> min <= r.value[i] <= max
  {
    var ds := Draws(randoms, min, max);
    var r := Fill(count, min, max, [], randoms);
    FillFromScratch(count, min, max, randoms);
    PrefixOfFirstOccurrences(count, ds);
    DrawsInRange(randoms, min, max);
    r
  }

  lemma FillFromScratch(count: nat, min: int, max: int, randoms: seq<real>)
    ensures var all := FirstOccurrences(Draws(randoms, min, max));
            Fill(count, min, max, [], randoms) == if |all| >= count then Some(all[..count]) else None
  {
    FillIsFirstOccurrences(count, min, max, [], randoms);
    assert [] + Draws(randoms, min, max) == Draws(randoms, min, max);
  }

  /** Facts about the first `count` first occurrences, when there are that many. */
  lemma PrefixOfFirstOccurrences(count: nat, ds: seq<int>)
    ensures var all := FirstOccurrences(ds);
            |all| >= count ==>
              && Distinct(all[..count])
              && (forall x :: x in all[..count] ==> x in ds)
              && (forall i :: 0 <= i < count ==> all[..count][i] in ds)
  {
    var all := FirstOccurrences(ds);
    if |all| >= count {
      FirstOccurrencesFacts(ds);
      assert forall x :: x in all[..count] ==> x in all;
    }
  }

  lemma DrawsInRange(randoms: seq<real>, min: int, max: int)
    ensures UnitInterval(randoms) && min <= max ==>
              forall x :: x in Draws(randoms, min, max) ==> min <= x <= max
  {
    var ds := Draws(randoms, min, max);
    if UnitInterval(randoms) && min <= max {
      forall x | x in ds
        ensures min <= x <= max
      {
        var i :| 0 <= i < |ds| && ds[i] == x;
        assert ds[i] == Draw(randoms[i], min, max);
      }
    }
  }

  /** The integers min..max, as a set. */
  function IntRange(min: int, max: int): (r: set<int>)
    ensures forall x :: x in r <==> min <= x <= max
    ensures min <= max + 1 ==> |r| == max - min + 1
    decreases max - min
  {
    if min > max then {} else IntRange(min, max - 1) + {max}
  }

  lemma {:induction false} DistinctCardinality(s: seq<int>)
    requires Distinct(s)
    ensures |set x | x in s| == |s|
  {
    if |s| > 0 {
      var t := s[1..];
      assert Distinct(t) by {
        forall i, j | 0 <= i < |t| && 0 <= j < |t| && i != j ensures t[i] != t[j] {
          assert t[i] == s[i + 1] && t[j] == s[j + 1];
        }
      }
      DistinctCardinality(t);
      assert s[0] !in t by {
        forall i | 0 <= i < |t| ensures t[i] != s[0] {
          assert t[i] == s[i + 1];
        }
      }
      assert (set x | x in s) == (set x | x in t) + {s[0]};
    }
  }

  /** A pairwise-distinct sequence of integers from [min, max] has at most
      max - min + 1 entries. */
  lemma DistinctInRangeBound(s: seq<int>, min: int, max: int)
    requires min <= max && Distinct(s)
    requires forall i :: 0 <= i < |s| ==> min <= s[i] <= max
    ensures |s| <= max - min + 1
  {
    DistinctCardinality(s);
    var elems := set x | x in s;
    var range := IntRange(min, max);
    assert elems <= range;
    SubsetCardinality(elems, range);
  }

  lemma SubsetCardinality(a: set<int>, b: set<int>)
    requires a <= b
    ensures |a| <= |b|
  {
    assert b == a + (b - a);
    assert a * (b - a) == {};
  }

  /** The sampler can only finish when at least `count` values fit in
      [min, max]: asking for more yields no answer from any oracle. */
  lemma TooManyNeverFinishes(count: nat, min: int, max: int, randoms: seq<real>)
    requires UnitInterval(randoms) && min <= max
    requires count > max - min + 1
    ensures GetUniqueRandomNumbers(count, min, max, randoms) == None
  {
    var r := GetUniqueRandomNumbers(count, min, max, randoms);
    if r.Some? {
      DistinctInRangeBound(r.value, min, max);
    }
  }
}
