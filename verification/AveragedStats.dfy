/** A decayed average of batches of samples, over real numbers. */
module AverageStats {

  function Sum(s: seq<real>): real {
    if s == [] then 0.0 else Sum(s[..|s| - 1]) + s[|s| - 1]
  }

  // How much a nonpositive weight or factor counts: not at all.
  function Positive(x: real): real {
    if x > 0.0 then x else 0.0
  }

  // The fixed settings of one average.
  datatype Settings = Settings(initAvg: real, regressWeight: real, persistence: real) {

    // A batch of n samples after batches of decayed weight w.
    function NextWeight(n: real, w: real): real {
      n + Positive(regressWeight) + Positive(persistence) * w
    }

    // A batch adding up to `sum` after batches of decayed total t.
    function NextTotal(sum: real, t: real): real {
      sum + Positive(regressWeight) * initAvg + Positive(persistence) * t
    }

    // n samples adding up to `sum`, and the regression towards initAvg.
    ghost predicate Regressed(n: real, sum: real, weight: real, total: real) {
      weight == n + Positive(regressWeight) && total == sum + Positive(regressWeight) * initAvg
    }

    ghost predicate Average(w: real, t: real, avg: real) {
      avg * w == t && (w == 0.0 ==> avg == initAvg)
    }

    // The number of samples in the closed batches, each update adding the regression weight and
    // scaling down what came before.
    function DecayedWeight(batches: seq<seq<real>>): real {
      if batches == [] then 0.0 else
      var last := |batches| - 1;
      NextWeight(|batches[last]| as real, DecayedWeight(batches[..last]))
    }

    // The total of the closed batches, decayed in the same way and regressing towards initAvg.
    function DecayedTotal(batches: seq<seq<real>>): real {
      if batches == [] then 0.0 else
      var last := |batches| - 1;
      NextTotal(Sum(batches[last]), DecayedTotal(batches[..last]))
    }

    lemma {:induction false} WeightNonnegative(batches: seq<seq<real>>)
      ensures DecayedWeight(batches) >= 0.0
    {
      if batches == [] {
      } else {
        var last := |batches| - 1;
        WeightNonnegative(batches[..last]);
        NonnegativeProduct(Positive(persistence), DecayedWeight(batches[..last]));
      }
    }

    lemma Appended(batches: seq<seq<real>>, batch: seq<real>, n: real, sum: real)
      requires n == |batch| as real && sum == Sum(batch)
      ensures DecayedWeight(batches + [batch]) == NextWeight(n, DecayedWeight(batches)) >= 0.0
      ensures DecayedTotal(batches + [batch]) == NextTotal(sum, DecayedTotal(batches))
    {
      assert (batches + [batch])[..|batches|] == batches;
      WeightNonnegative(batches + [batch]);
    }

    // What the first batch counts for after as many updates as there are later batches: its samples and the
    // regression weight, scaled down once by each.
    lemma {:induction false} FirstBatchDecays(first: seq<real>, later: seq<seq<real>>, n: real, sum: real)
      requires n == |first| as real + Positive(regressWeight) && sum == Sum(first) + Positive(regressWeight) * initAvg
      ensures DecayedWeight([first] + later) == Scaled(Positive(persistence), |later|, n) + DecayedWeight(later)
      ensures DecayedTotal([first] + later) == Scaled(Positive(persistence), |later|, sum) + DecayedTotal(later)
    {
      if later == [] {
        OnlyBatch(first, n, sum);
        assert [first] + later == [first];
      } else {
        var k := |later| - 1;
        var before, last := later[..k], later[k];
        FirstBatchDecays(first, before, n, sum);
        assert later == before + [last] && [first] + later == ([first] + before) + [last];
        var p := Positive(persistence);
        OneBatchLater([first] + before, before, last, Scaled(p, k, n), Scaled(p, k, sum), Scaled(p, k + 1, n), Scaled(p, k + 1, sum));
      }
    }

    lemma OnlyBatch(first: seq<real>, n: real, sum: real)
      requires n == |first| as real + Positive(regressWeight) && sum == Sum(first) + Positive(regressWeight) * initAvg
      ensures DecayedWeight([first]) == n && DecayedTotal([first]) == sum
    {
      Appended([], first, |first| as real, Sum(first));
      assert [] + [first] == [first];
      TimesNothing(Positive(persistence));
    }

    // What is added to a decayed weight and total is scaled down once by the next update.
    lemma OneBatchLater(all: seq<seq<real>>, before: seq<seq<real>>, last: seq<real>, a: real, b: real, a': real, b': real)
      requires DecayedWeight(all) == a + DecayedWeight(before) && a' == Positive(persistence) * a
      requires DecayedTotal(all) == b + DecayedTotal(before) && b' == Positive(persistence) * b
      ensures DecayedWeight(all + [last]) == a' + DecayedWeight(before + [last])
      ensures DecayedTotal(all + [last]) == b' + DecayedTotal(before + [last])
    {
      var n, sum := |last| as real, Sum(last);
      Appended(all, last, n, sum);
      Appended(before, last, n, sum);
      WeightShifts(n, a, a', DecayedWeight(before), DecayedWeight(all));
      TotalShifts(sum, b, b', DecayedTotal(before), DecayedTotal(all));
    }

    lemma WeightShifts(n: real, a: real, a': real, w: real, w': real)
      requires w' == a + w && a' == Positive(persistence) * a
      ensures NextWeight(n, w') == a' + NextWeight(n, w)
    {
      Distributes(Positive(persistence), a, w);
    }

    lemma TotalShifts(sum: real, b: real, b': real, t: real, t': real)
      requires t' == b + t && b' == Positive(persistence) * b
      ensures NextTotal(sum, t') == b' + NextTotal(sum, t)
    {
      Distributes(Positive(persistence), b, t);
    }

    // Where nothing weighs anything the total is nothing.
    lemma {:induction false} NoWeightNoTotal(batches: seq<seq<real>>)
      ensures DecayedWeight(batches) == 0.0 ==> DecayedTotal(batches) == 0.0
    {
      if batches != [] {
        var last := |batches| - 1;
        var w := DecayedWeight(batches[..last]);
        NoWeightNoTotal(batches[..last]);
        WeightNonnegative(batches[..last]);
        NextOfNone(|batches[last]| as real, Sum(batches[last]), w, DecayedTotal(batches[..last]));
      }
    }

    lemma NextOfNone(n: real, sum: real, w: real, t: real)
      requires n >= 0.0 && w >= 0.0 && (n == 0.0 ==> sum == 0.0) && (w == 0.0 ==> t == 0.0)
      ensures NextWeight(n, w) == 0.0 ==> NextTotal(sum, t) == 0.0
    {
    }

    // Between lo and hi lie initAvg and every sample of every batch.
    ghost predicate Within(batches: seq<seq<real>>, lo: real, hi: real) {
      && lo <= initAvg <= hi
      && forall i | 0 <= i < |batches| :: AllWithin(batches[i], lo, hi)
    }

    // The decayed total is between the totals of as many copies of lo, and of hi.
    lemma {:induction false} TotalWithin(batches: seq<seq<real>>, lo: real, hi: real)
      requires Within(batches, lo, hi)
      ensures Between(DecayedWeight(batches), DecayedTotal(batches), lo, hi)
    {
      if batches == [] {
      } else {
        var last := |batches| - 1;
        TotalWithin(batches[..last], lo, hi);
        SumWithin(batches[last], lo, hi);
        var n, sum := |batches[last]| as real, Sum(batches[last]);
        NextWithin(n, sum, DecayedWeight(batches[..last]), DecayedTotal(batches[..last]), lo, hi);
      }
    }

    lemma Averaged(sum: real, weight: real, avg: real)
      requires weight >= 0.0 && (weight == 0.0 ==> sum == 0.0)
      requires avg == if weight > 0.0 then sum / weight else initAvg
      ensures Average(weight, sum, avg)
    {
    }

    lemma NextWithin(n: real, sum: real, w: real, t: real, lo: real, hi: real)
      requires Between(n, sum, lo, hi) && Between(w, t, lo, hi) && lo <= initAvg <= hi
      ensures Between(NextWeight(n, w), NextTotal(sum, t), lo, hi)
    {
      var r, p := Positive(regressWeight), Positive(persistence);
      MulMonotone(r, lo, initAvg);
      MulMonotone(r, initAvg, hi);
      MulMonotone(p, lo * w, t);
      MulMonotone(p, t, hi * w);
      SplitWeight(n, r, p, w, lo);
      SplitWeight(n, r, p, w, hi);
    }
  }

  // The total t of samples of weight w is that of samples from lo to hi.
  ghost predicate Between(w: real, t: real, lo: real, hi: real) {
    lo * w <= t <= hi * w
  }

  ghost predicate AllWithin(s: seq<real>, lo: real, hi: real) {
    forall i | 0 <= i < |s| :: lo <= s[i] <= hi
  }

  lemma {:induction false} SumWithin(s: seq<real>, lo: real, hi: real)
    requires AllWithin(s, lo, hi)
    ensures Between(|s| as real, Sum(s), lo, hi)
  {
    if s == [] {
    } else {
      SumWithin(s[..|s| - 1], lo, hi);
      var n := (|s| - 1) as real;
      assert |s| as real == n + 1.0;
      OneMore(n, Sum(s[..|s| - 1]), s[|s| - 1], lo, hi);
    }
  }

  lemma OneMore(n: real, sum: real, x: real, lo: real, hi: real)
    requires Between(n, sum, lo, hi) && lo <= x <= hi
    ensures Between(n + 1.0, sum + x, lo, hi)
  {
  }

  // y scaled down k times.
  function Scaled(x: real, k: nat, y: real): real {
    if k == 0 then y else x * Scaled(x, k - 1, y)
  }

  lemma TimesNothing(x: real)
    ensures x * 0.0 == 0.0
  {
  }

  lemma Distributes(x: real, y: real, z: real)
    ensures x * (y + z) == x * y + x * z
  {
  }

  lemma Persisted(p: real, w: real, avg: real, t: real)
    requires avg * w == t
    ensures (p * w) * avg == p * t
  {
  }

  lemma NonnegativeProduct(x: real, y: real)
    requires x >= 0.0 && y >= 0.0
    ensures x * y >= 0.0
  {
  }

  lemma MulMonotone(x: real, y: real, z: real)
    requires x >= 0.0 && y <= z
    ensures x * y <= x * z
  {
  }

  lemma SplitWeight(n: real, r: real, p: real, w: real, x: real)
    ensures x * (n + r + p * w) == x * n + r * x + p * (x * w)
  {
  }

  // A weighted average lies where its total does.
  lemma AverageBetween(w: real, t: real, avg: real, lo: real, hi: real)
    requires w > 0.0 && avg * w == t && Between(w, t, lo, hi)
    ensures lo <= avg <= hi
  {
  }

  class AveragedStats {
    const settings: Settings
    var batchTotalValue: real
    var batchNumSamples: real
    var aggregateTotalWeight: real
    var aggregateWeightedAvg: real

    // The samples since the last update, and those of every earlier batch.
    ghost var current: seq<real>
    ghost var batches: seq<seq<real>>

    ghost predicate Valid()
      reads this
    {
      && batchTotalValue == Sum(current)
      && batchNumSamples == |current| as real
      && aggregateTotalWeight == settings.DecayedWeight(batches)
      && IsAverage(aggregateWeightedAvg)
    }

    // avg is the decayed total divided by the decayed weight; with no weight at all it is initAvg.
    ghost predicate IsAverage(avg: real)
      reads this
    {
      settings.Average(settings.DecayedWeight(batches), settings.DecayedTotal(batches), avg)
    }

    constructor (settings: Settings)
      ensures Valid() && current == [] && batches == [] && this.settings == settings
    {
      this.settings := settings;
      batchTotalValue := 0.0;
      batchNumSamples := 0.0;
      aggregateTotalWeight := 0.0;
      aggregateWeightedAvg := settings.initAvg;
      current := [];
      batches := [];
    }

    method AddSample(value: real)
      requires Valid()
      modifies this
      ensures Valid() && current == old(current) + [value] && batches == old(batches)
      ensures aggregateWeightedAvg == old(aggregateWeightedAvg)
    {
      batchTotalValue := batchTotalValue + value;
      batchNumSamples := batchNumSamples + 1.0;
      current := current + [value];
    }

    // Closes the current batch.
    method UpdateAverage() returns (avg: real)
      requires Valid()
      modifies this
      ensures Valid() && current == [] && batches == old(batches) + [old(current)]
      ensures avg == aggregateWeightedAvg && IsAverage(avg)
    {
      var weightedSum, totalWeight := AddUp();
      avg := if totalWeight > 0.0 then weightedSum / totalWeight else settings.initAvg;
      settings.Averaged(weightedSum, totalWeight, avg);
      aggregateWeightedAvg := avg;
      aggregateTotalWeight := totalWeight;
      batchNumSamples := 0.0;
      batchTotalValue := 0.0;
      batches := batches + [current];
      current := [];
    }

    // The current batch, the regression towards initAvg and the decayed previous average.
    method AddUp() returns (weightedSum: real, totalWeight: real)
      requires Valid()
      ensures totalWeight == settings.DecayedWeight(batches + [current]) >= 0.0
      ensures weightedSum == settings.DecayedTotal(batches + [current])
      ensures totalWeight == 0.0 ==> weightedSum == 0.0
    {
      weightedSum, totalWeight := AddRegression(batchTotalValue, batchNumSamples);
      ghost var n, total := batchNumSamples, batchTotalValue;
      weightedSum, totalWeight := AddPrevious(weightedSum, totalWeight, n, total);
      settings.Appended(batches, current, n, total);
      settings.NoWeightNoTotal(batches + [current]);
    }

    method AddRegression(sum: real, weight: real) returns (weightedSum: real, totalWeight: real)
      ensures settings.Regressed(weight, sum, totalWeight, weightedSum)
    {
      weightedSum, totalWeight := sum, weight;
      if settings.regressWeight > 0.0 {
        weightedSum := weightedSum + settings.regressWeight * settings.initAvg;
        totalWeight := totalWeight + settings.regressWeight;
      }
    }

    method AddPrevious(sum: real, weight: real, ghost n: real, ghost total: real)
      returns (weightedSum: real, totalWeight: real)
      requires Valid() && settings.Regressed(n, total, weight, sum)
      ensures totalWeight == settings.NextWeight(n, settings.DecayedWeight(batches))
      ensures weightedSum == settings.NextTotal(total, settings.DecayedTotal(batches))
    {
      weightedSum, totalWeight := sum, weight;
      if settings.persistence > 0.0 {
        var prevSampleWeight := settings.persistence * aggregateTotalWeight;
        Persisted(settings.persistence, aggregateTotalWeight, aggregateWeightedAvg, settings.DecayedTotal(batches));
        weightedSum := weightedSum + prevSampleWeight * aggregateWeightedAvg;
        totalWeight := totalWeight + prevSampleWeight;
      }
    }

    // The average never leaves the range of initAvg and the samples seen.
    lemma AverageWithin(lo: real, hi: real)
      requires Valid() && settings.Within(batches, lo, hi)
      ensures lo <= aggregateWeightedAvg <= hi
    {
      settings.WeightNonnegative(batches);
      settings.TotalWithin(batches, lo, hi);
      var w, t := settings.DecayedWeight(batches), settings.DecayedTotal(batches);
      if w > 0.0 {
        AverageBetween(w, t, aggregateWeightedAvg, lo, hi);
      }
    }
  }
}
