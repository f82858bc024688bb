/** The exploration-floored weights learned for the mutation families. */
module MutationWeights {
  import opened Options
  import opened OrderedDicts

  const EXPLORE: real := 0.20

  datatype Family = Family(name: string, scoreDelta: real, sharpeDelta: real)

  type Table = OrderedDict<real>

  function Performance(f: Family): real {
    var p := f.scoreDelta + 0.5 * f.sharpeDelta;
    if p >= 0.0 then p else 0.0
  }

  /** The sum of a dictionary's values over some of its keys. */
  function SumOver(keys: seq<string>, vals: map<string, real>): real
    requires forall k :: k in keys ==> k in vals
  {
    if keys == [] then 0.0 else SumOver(keys[..|keys| - 1], vals) + vals[keys[|keys| - 1]]
  }

  /** A family's share of the total. */
  function Share(performance: real, total: real): real
    requires total != 0.0
  {
    performance / total
  }

  function Uniform(n: nat): real
    requires n > 0
  {
    1.0 / n as real
  }

  function Mixed(exploit: real, uniform: real): real {
    (1.0 - EXPLORE) * exploit + EXPLORE * uniform
  }

  function Weight(performance: real, total: real, n: nat): real
    requires n > 0
  {
    if total <= 0.0 then Uniform(n) else Mixed(Share(performance, total), Uniform(n))
  }

  /** The last family of that name. */
  function LastNamed(families: seq<Family>, name: string): Option<Family> {
    if families == [] then None
    else if families[|families| - 1].name == name then Some(families[|families| - 1])
    else LastNamed(families[..|families| - 1], name)
  }

  function TableOf(families: seq<Family>): (perf: Table)
    ensures perf.Valid() && (families != [] ==> perf.keys != [])
  {
    if families == [] then Empty()
    else
      var last, rest := families[|families| - 1], TableOf(families[..|families| - 1]);
      SetFacts(rest, last.name, Performance(last));
      rest.Set(last.name, Performance(last))
  }

  /** The dictionary comprehension over the families: a repeated name keeps its last figures. */
  method PerformanceTable(families: seq<Family>) returns (perf: Table)
    ensures perf == TableOf(families)
    ensures perf.Valid() && (families != [] ==> perf.keys != [])
    ensures forall k :: k in perf.vals <==> LastNamed(families, k).Some?
    ensures forall k :: k in perf.vals ==> perf.vals[k] == Performance(LastNamed(families, k).value)
    ensures forall k, i :: k in perf.vals && 0 <= i < |families| && families[i].name == k
                           && (forall j :: i < j < |families| ==> families[j].name != k) ==>
      perf.vals[k] == (var p := families[i].scoreDelta + 0.5 * families[i].sharpeDelta; if p > 0.0 then p else 0.0)
  {
    perf := Empty();
    for i := 0 to |families|
      invariant perf == TableOf(families[..i])
      invariant perf.Valid() && (i > 0 ==> perf.keys != [])
      invariant forall k :: k in perf.vals <==> LastNamed(families[..i], k).Some?
      invariant forall k :: k in perf.vals ==> perf.vals[k] == Performance(LastNamed(families[..i], k).value)
    {
      assert families[..i + 1][..i] == families[..i];
      SetFacts(perf, families[i].name, Performance(families[i]));
      perf := perf.Set(families[i].name, Performance(families[i]));
    }
    assert families[..|families|] == families;
    forall i | 0 <= i < |families| && (forall j :: i < j < |families| ==> families[j].name != families[i].name)
      ensures LastNamed(families, families[i].name) == Some(families[i])
    {
      LastNamedAt(families, i);
    }
  }

  lemma {:induction false} LastNamedAt(families: seq<Family>, i: nat)
    requires i < |families| && forall j :: i < j < |families| ==> families[j].name != families[i].name
    ensures LastNamed(families, families[i].name) == Some(families[i])
  {
    var n := |families| - 1;
    if i < n {
      LastNamedAt(families[..n], i);
    }
  }

  /** The learned weights; none without families. */
  method LearnWeights(families: seq<Family>) returns (weights: Option<Table>)
    ensures weights.None? <==> families == []
    ensures weights.Some? ==>
      && weights.value == OrderedDict(TableOf(families).keys, WeightsOf(TableOf(families)))
      && IsLearned(families, weights.value)
  {
    if families == [] {
      return None;
    }
    var perf := PerformanceTable(families);
    weights := Some(OrderedDict(perf.keys, WeightsOf(perf)));
    LearnedFrom(families, perf);
  }

  lemma LearnedFrom(families: seq<Family>, perf: Table)
    requires perf.Valid() && perf.keys != []
    requires forall k :: k in perf.vals <==> LastNamed(families, k).Some?
    requires forall k :: k in perf.vals ==> perf.vals[k] == Performance(LastNamed(families, k).value)
    ensures IsLearned(families, OrderedDict(perf.keys, WeightsOf(perf)))
  {
    var w := OrderedDict(perf.keys, WeightsOf(perf));
    forall a, b | a in w.vals && b in w.vals
      ensures w.vals[a] >= EXPLORE * Uniform(|w.keys|)
      ensures w.vals[a] < w.vals[b] <==> perf.vals[a] < perf.vals[b]
    {
      WeightsKeepFloorAndOrder(perf, a, b);
      WeightsKeepFloorAndOrder(perf, b, a);
      FifthOfUniform(|perf.keys|);
    }
    WeightsSumToOne(perf);
  }

  lemma FifthOfUniform(n: nat)
    requires n > 0
    ensures Uniform(n) >= EXPLORE * Uniform(n)
  {
  }

  /**
   One weight per family name; the weights add up to 1, none is below a fifth of the uniform
   weight, and one family outweighs another exactly when its clamped performance is better.
   */
  ghost predicate IsLearned(families: seq<Family>, w: Table) {
    && w.Valid() && w.keys != []
    && (forall k :: k in w.vals <==> LastNamed(families, k).Some?)
    && SumOver(w.keys, w.vals) == 1.0
    && (forall k :: k in w.vals ==> w.vals[k] >= EXPLORE * Uniform(|w.keys|))
    && (forall a, b :: a in w.vals && b in w.vals ==>
          (w.vals[a] < w.vals[b] <==>
            Performance(LastNamed(families, a).value) < Performance(LastNamed(families, b).value)))
  }

  function WeightsOf(perf: Table): map<string, real>
    requires forall k :: k in perf.keys ==> k in perf.vals
  {
    map k | k in perf.vals && k in perf.keys :: Weight(perf.vals[k], SumOver(perf.keys, perf.vals), |perf.keys|)
  }

  // ------------------------------------------------------------------ results

  lemma {:induction false} SumNotNegative(keys: seq<string>, vals: map<string, real>)
    requires forall k :: k in keys ==> k in vals && vals[k] >= 0.0
    ensures SumOver(keys, vals) >= 0.0
    ensures forall k :: k in keys ==> vals[k] <= SumOver(keys, vals)
  {
    if keys != [] {
      SumNotNegative(keys[..|keys| - 1], vals);
    }
  }

  lemma ShareAdds(a: real, b: real, t: real)
    requires t != 0.0
    ensures Share(a, t) + Share(b, t) == Share(a + b, t)
  {
    var x, y := a / t, b / t;
    assert (x + y) * t == a + b;
  }

  function Multiple(n: nat, x: real): real {
    n as real * x
  }

  lemma MultipleSucc(n: nat, x: real)
    ensures Multiple(n + 1, x) == Multiple(n, x) + x
  {
  }

  lemma MultipleUniform(n: nat)
    requires n > 0
    ensures Multiple(n, Uniform(n)) == 1.0
  {
  }

  lemma WholeShare(t: real)
    requires t != 0.0
    ensures Share(t, t) == 1.0
  {
    assert t / t * t == t;
  }

  lemma MixedAdds(e: real, u: real, e': real, u': real)
    ensures Mixed(e, u) + Mixed(e', u') == Mixed(e + e', u + u')
  {
  }

  /** The weights of any of the keys add up in proportion. */
  lemma {:induction false} PartialWeights(keys: seq<string>, perf: map<string, real>, weights: map<string, real>,
                                          total: real, n: nat)
    requires n > 0 && total > 0.0
    requires forall k :: k in keys ==> k in perf && k in weights && weights[k] == Weight(perf[k], total, n)
    ensures SumOver(keys, weights) == Mixed(Share(SumOver(keys, perf), total), Multiple(|keys|, Uniform(n)))
  {
    if keys == [] {
      assert Share(0.0, total) == 0.0;
    } else {
      var init, k := keys[..|keys| - 1], keys[|keys| - 1];
      PartialWeights(init, perf, weights, total, n);
      ShareAdds(SumOver(init, perf), perf[k], total);
      MultipleSucc(|init|, Uniform(n));
      MixedAdds(Share(SumOver(init, perf), total), Multiple(|init|, Uniform(n)), Share(perf[k], total), Uniform(n));
    }
  }

  lemma {:induction false} UniformWeights(keys: seq<string>, weights: map<string, real>, w: real)
    requires forall k :: k in keys ==> k in weights && weights[k] == w
    ensures SumOver(keys, weights) == Multiple(|keys|, w)
  {
    if keys != [] {
      UniformWeights(keys[..|keys| - 1], weights, w);
      MultipleSucc(|keys| - 1, w);
    }
  }

  /** For any number of families and any scores, the weights add up to 1. */
  lemma WeightsSumToOne(perf: Table)
    requires perf.Valid() && perf.keys != []
    requires forall k :: k in perf.vals ==> perf.vals[k] >= 0.0
    ensures SumOver(perf.keys, WeightsOf(perf)) == 1.0
  {
    var total, n := SumOver(perf.keys, perf.vals), |perf.keys|;
    MultipleUniform(n);
    if total <= 0.0 {
      UniformWeights(perf.keys, WeightsOf(perf), Uniform(n));
    } else {
      PartialWeights(perf.keys, perf.vals, WeightsOf(perf), total, n);
      WholeShare(total);
      assert Mixed(1.0, 1.0) == 1.0;
    }
  }

  /**
   With a positive total every weight is at least a fifth of the uniform one, and the weights
   are ordered exactly as the clamped performances; otherwise they are uniform.
   */
  lemma WeightsKeepFloorAndOrder(perf: Table, a: string, b: string)
    requires perf.Valid() && a in perf.vals && b in perf.vals
    requires forall k :: k in perf.vals ==> perf.vals[k] >= 0.0
    ensures var w, n, total := WeightsOf(perf), |perf.keys|, SumOver(perf.keys, perf.vals);
      && n > 0
      && (total > 0.0 ==> w[a] == 0.8 * (perf.vals[a] / total) + 0.2 * (1.0 / n as real))
      && (total > 0.0 ==> w[a] >= EXPLORE * Uniform(n) && (w[a] < w[b] <==> perf.vals[a] < perf.vals[b]))
      && (total <= 0.0 ==> w[a] == w[b] == Uniform(n) && perf.vals[a] == 0.0)
  {
    assert a in perf.keys && b in perf.keys;
    var n, total := |perf.keys|, SumOver(perf.keys, perf.vals);
    SumNotNegative(perf.keys, perf.vals);
    if total > 0.0 {
      ShareOrder(perf.vals[a], perf.vals[b], total);
      ShareOrder(perf.vals[b], perf.vals[a], total);
      ShareOrder(0.0, perf.vals[a], total);
      MixedOrder(Share(perf.vals[a], total), Share(perf.vals[b], total), Uniform(n));
      MixedOrder(0.0, Share(perf.vals[a], total), Uniform(n));
      assert Share(0.0, total) == 0.0;
    }
  }

  lemma MixedOrder(e: real, e': real, u: real)
    ensures Mixed(e, u) < Mixed(e', u) <==> e < e'
    ensures Mixed(0.0, u) == EXPLORE * u
  {
  }

  lemma ShareOrder(x: real, y: real, t: real)
    requires t > 0.0
    ensures x < y ==> Share(x, t) < Share(y, t)
    ensures x <= y ==> Share(x, t) <= Share(y, t)
  {
    var a, b := x / t, y / t;
    assert a * t == x && b * t == y;
    if a > b {
      assert (a - b) * t > 0.0;
    }
  }
}
