/** `selectWeightedRandomItem`, as both frontend scripts define it: running
    totals of the weights, the draw scaled by the last total, and the first
    index whose running total exceeds the scaled draw. The current script
    feeds it integer weights; the earlier one feeds it `parseInt` results,
    where `NaN` poisons every later total. */
module Weighted {
  import opened Common

  /** Sum of a sequence of weights, added from the left. */
  function Sum(ws: seq<int>): int {
    if |ws| == 0 then 0 else ws[0] + Sum(ws[1..])
  }

  predicate NonNegative(ws: seq<int>) {
    forall i :: 0 <= i < |ws| ==> ws[i] >= 0
  }

  /** The running total up to and including item `i`. */
  function Running(ws: seq<int>, i: nat): int
    requires i < |ws|
  {
    Sum(ws[..i + 1])
  }

  /** The draw scaled by the total, as `Math.random() * weights.at(-1)`. */
  function Scaled(u: Draw, total: int): (x: real)
    ensures total >= 0 ==> 0.0 <= x
    ensures total > 0 ==> x < total as real
  {
    var t := total as real;
    assert total >= 0 ==> 0.0 <= u * t;
    assert total > 0 ==> (1.0 - u) * t > 0.0;
    u * t
  }

  lemma {:induction false} SumAppend(ws: seq<int>, w: int)
    ensures Sum(ws + [w]) == Sum(ws) + w
  {
    if |ws| == 0 {
      assert ws + [w] == [w];
    } else {
      assert (ws + [w])[1..] == ws[1..] + [w];
      SumAppend(ws[1..], w);
    }
  }

  /** The `reduce` that builds the running totals: each element is the weight
      plus the previous total (`acc[i - 1] ?? 0`). */
  function PrefixSums(ws: seq<int>): (acc: seq<int>)
    ensures |acc| == |ws|
    ensures forall i :: 0 <= i < |ws| ==> acc[i] == Running(ws, i)
  {
    if |ws| == 0 then []
    else
      var n := |ws| - 1;
      var init := ws[..n];
      var acc := PrefixSums(init);
      SumAppend(init, ws[n]);
      assert init + [ws[n]] == ws[..n + 1];
      assert forall i :: 0 <= i < n ==> Running(init, i) == Running(ws, i) by {
        forall i | 0 <= i < n ensures Running(init, i) == Running(ws, i) {
          assert init[..i + 1] == ws[..i + 1];
        }
      }
      assert n > 0 ==> init[..n - 1 + 1] == init;
      acc + [ws[n] + (if |acc| == 0 then 0 else acc[|acc| - 1])]
  }

  /** `findIndex(weight => weight > random)`: -1 when no total exceeds the draw. */
  function FindIndexAbove(acc: seq<int>, random: real): (k: int)
    ensures -1 <= k < |acc|
    ensures 0 <= k ==> acc[k] as real > random
    ensures forall i :: 0 <= i < |acc| && (k < 0 || i < k) ==> acc[i] as real <= random
  {
    if |acc| == 0 then -1
    else if acc[0] as real > random then 0
    else
      var k := FindIndexAbove(acc[1..], random);
      if k < 0 then -1 else k + 1
  }

  /** The index of the item `selectWeightedRandomItem` returns for the draw
      `u`: the first item whose running total exceeds the scaled draw, or
      `None` where `findIndex` yields -1 and the item is `undefined`. */
  function SelectWeightedRandomItem(ws: seq<int>, u: Draw): (r: Option<nat>)
    ensures r.Some? ==> r.value < |ws| && Running(ws, r.value) as real > Scaled(u, Sum(ws))
    ensures r.Some? ==> forall j :: 0 <= j < r.value ==> Running(ws, j) as real <= Scaled(u, Sum(ws))
    ensures r.None? <==> forall j :: 0 <= j < |ws| ==> Running(ws, j) as real <= Scaled(u, Sum(ws))
  {
    var acc := PrefixSums(ws);
    assert |ws| > 0 ==> ws[..|ws| - 1 + 1] == ws;
    var random := if |acc| == 0 then 0.0 else Scaled(u, acc[|acc| - 1]);
    var k := FindIndexAbove(acc, random);
    if k < 0 then None else Some(k)
  }

  lemma {:induction false} SumMonotone(ws: seq<int>, i: nat, j: nat)
    requires NonNegative(ws)
    requires i <= j <= |ws|
    ensures Sum(ws[..i]) <= Sum(ws[..j])
    decreases j - i
  {
    if i < j {
      SumMonotone(ws, i, j - 1);
      SumAppend(ws[..j - 1], ws[j - 1]);
      assert ws[..j - 1] + [ws[j - 1]] == ws[..j];
    }
  }

  lemma TotalNonNegative(ws: seq<int>)
    requires NonNegative(ws)
    ensures Sum(ws) >= 0
  {
    SumMonotone(ws, 0, |ws|);
    assert ws[..|ws|] == ws;
  }

  /** A weight of zero is never picked. */
  lemma {:induction false} PickedWeightIsPositive(ws: seq<int>, u: Draw)
    requires NonNegative(ws)
    requires SelectWeightedRandomItem(ws, u).Some?
    ensures ws[SelectWeightedRandomItem(ws, u).value] > 0
  {
    var k := SelectWeightedRandomItem(ws, u).value;
    var x := Scaled(u, Sum(ws));
    TotalNonNegative(ws);
    SumAppend(ws[..k], ws[k]);
    assert ws[..k] + [ws[k]] == ws[..k + 1];
    if k > 0 {
      assert ws[..k - 1 + 1] == ws[..k];
      assert Running(ws, k - 1) as real <= x;
    } else {
      assert ws[..0] == [];
    }
  }

  /** With non-negative weights and a positive total, some item is always picked. */
  lemma {:induction false} PositiveTotalAlwaysPicks(ws: seq<int>, u: Draw)
    requires NonNegative(ws)
    requires Sum(ws) > 0
    ensures SelectWeightedRandomItem(ws, u).Some?
  {
    var n := |ws| - 1;
    assert ws[..n + 1] == ws;
    assert Running(ws, n) as real > Scaled(u, Sum(ws));
  }

  /** With non-negative weights summing to zero, `findIndex` yields -1. */
  lemma {:induction false} ZeroTotalNeverPicks(ws: seq<int>, u: Draw)
    requires NonNegative(ws)
    requires Sum(ws) == 0
    ensures SelectWeightedRandomItem(ws, u).None?
  {
    forall j | 0 <= j < |ws|
      ensures Running(ws, j) as real <= Scaled(u, Sum(ws))
    {
      SumMonotone(ws, j + 1, |ws|);
      assert ws[..|ws|] == ws;
    }
  }

  /** The distribution: item `k` is picked exactly when the scaled draw falls
      into its slice `[Sum(ws[..k]), Sum(ws[..k+1]))`, whose width is `ws[k]`. */
  lemma {:induction false} PickedIffDrawInSlice(ws: seq<int>, u: Draw, k: nat)
    requires NonNegative(ws)
    requires k < |ws|
    ensures SelectWeightedRandomItem(ws, u) == Some(k)
        <==> Sum(ws[..k]) as real <= Scaled(u, Sum(ws)) < Running(ws, k) as real
  {
    var x := Scaled(u, Sum(ws));
    TotalNonNegative(ws);
    var r := SelectWeightedRandomItem(ws, u);
    if r == Some(k) {
      if k > 0 {
        assert ws[..k - 1 + 1] == ws[..k];
        assert Running(ws, k - 1) as real <= x;
      } else {
        assert ws[..0] == [];
      }
    }
    if Sum(ws[..k]) as real <= x < Running(ws, k) as real {
      forall j | 0 <= j < k
        ensures Running(ws, j) as real <= x
      {
        SumMonotone(ws, j + 1, k);
      }
      assert r.Some?;
    }
  }

  // The earlier script: `parseInt` results without a default.

  /** Running totals over `parseInt` results: once a `NaN` (`None`) enters,
      every later total is `NaN` too. */
  function LegacyPrefixSums(ws: seq<Option<int>>): (acc: seq<Option<int>>)
    ensures |acc| == |ws|
  {
    if |ws| == 0 then []
    else
      var acc := LegacyPrefixSums(ws[..|ws| - 1]);
      var previous := if |acc| == 0 then Some(0) else acc[|acc| - 1];
      var total := if ws[|ws| - 1].Some? && previous.Some?
                   then Some(ws[|ws| - 1].value + previous.value) else None;
      acc + [total]
  }

  /** `findIndex(weight => weight > random)` where either side may be `NaN`,
      and every comparison with `NaN` is false. */
  function LegacyFindIndexAbove(acc: seq<Option<int>>, random: Option<real>): (k: int)
    ensures -1 <= k < |acc|
  {
    if |acc| == 0 then -1
    else if acc[0].Some? && random.Some? && acc[0].value as real > random.value then 0
    else
      var k := LegacyFindIndexAbove(acc[1..], random);
      if k < 0 then -1 else k + 1
  }

  function LegacySelectWeightedRandomItem(ws: seq<Option<int>>, u: Draw): (r: Option<nat>)
    ensures r.Some? ==> r.value < |ws|
  {
    var acc := LegacyPrefixSums(ws);
    var random := if |acc| == 0 || acc[|acc| - 1].None? then None
                  else Some(Scaled(u, acc[|acc| - 1].value));
    var k := LegacyFindIndexAbove(acc, random);
    if k < 0 then None else Some(k)
  }

  predicate AllNumeric(ws: seq<Option<int>>) {
    forall i :: 0 <= i < |ws| ==> ws[i].Some?
  }

  function Numbers(ws: seq<Option<int>>): (ns: seq<int>)
    requires AllNumeric(ws)
    ensures |ns| == |ws|
    ensures forall i :: 0 <= i < |ws| ==> ns[i] == ws[i].value
  {
    seq(|ws|, i requires 0 <= i < |ws| => ws[i].value)
  }

  lemma {:induction false} LegacyPrefixSumsNumeric(ws: seq<Option<int>>)
    requires AllNumeric(ws)
    ensures forall i :: 0 <= i < |ws| ==> LegacyPrefixSums(ws)[i] == Some(PrefixSums(Numbers(ws))[i])
  {
    if |ws| > 0 {
      var init := ws[..|ws| - 1];
      LegacyPrefixSumsNumeric(init);
      assert Numbers(init) == Numbers(ws)[..|ws| - 1];
    }
  }

  lemma {:induction false} LegacyPrefixSumsPoisoned(ws: seq<Option<int>>, j: nat)
    requires j < |ws| && ws[j].None?
    ensures forall i :: j <= i < |ws| ==> LegacyPrefixSums(ws)[i].None?
  {
    if j < |ws| - 1 {
      LegacyPrefixSumsPoisoned(ws[..|ws| - 1], j);
    }
  }

  lemma {:induction false} LegacyFindIndexNumeric(acc: seq<Option<int>>, ns: seq<int>, x: real)
    requires |acc| == |ns|
    requires forall i :: 0 <= i < |acc| ==> acc[i] == Some(ns[i])
    ensures LegacyFindIndexAbove(acc, Some(x)) == FindIndexAbove(ns, x)
  {
    if |acc| > 0 {
      LegacyFindIndexNumeric(acc[1..], ns[1..], x);
    }
  }

  lemma {:induction false} LegacyFindIndexNaN(acc: seq<Option<int>>)
    ensures LegacyFindIndexAbove(acc, None) == -1
  {
    if |acc| > 0 {
      LegacyFindIndexNaN(acc[1..]);
    }
  }

  /** When every weight parses, the earlier script picks exactly what the
      current one picks: the same running-total, first-exceeding rule. */
  lemma {:induction false} LegacyAgreesOnNumbers(ws: seq<Option<int>>, u: Draw)
    requires AllNumeric(ws)
    ensures LegacySelectWeightedRandomItem(ws, u) == SelectWeightedRandomItem(Numbers(ws), u)
  {
    LegacyPrefixSumsNumeric(ws);
    var acc := LegacyPrefixSums(ws);
    var ns := PrefixSums(Numbers(ws));
    var x := if |ns| == 0 then 0.0 else Scaled(u, ns[|ns| - 1]);
    LegacyFindIndexNumeric(acc, ns, x);
    assert |acc| > 0 ==> acc[|acc| - 1] == Some(ns[|ns| - 1]);
  }

  /** A single weight that does not parse makes the last total `NaN`, so no
      item is returned. */
  lemma {:induction false} LegacyNaNNeverPicks(ws: seq<Option<int>>, u: Draw, j: nat)
    requires j < |ws| && ws[j].None?
    ensures LegacySelectWeightedRandomItem(ws, u).None?
  {
    LegacyPrefixSumsPoisoned(ws, j);
    LegacyFindIndexNaN(LegacyPrefixSums(ws));
  }
}
