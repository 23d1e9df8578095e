/** The feature builder: a ring buffer of midpoints that must agree with the full event history. */
module Features {
  import opened FixedPoint
  import opened Types

  const PPM: int := 1_000_000

  function Clamp(value: int): int {
    Min(Max(value, INT64_MIN), INT64_MAX)
  }

  // ----- features of a history -----

  /** The change in parts per million against the midpoint exactly `lookback` updates earlier. */
  function ReturnPpm(history: seq<int>, lookback: nat, midpoint: int): int {
    if |history| < lookback || lookback == 0 then 0
    else
      var oldest := history[|history| - lookback];
      if oldest > 0 then Clamp(TruncDiv((midpoint - oldest) * PPM, oldest)) else 0
  }

  function ImbalancePpm(e: MarketEvent): int {
    var liquidity := e.bidQuantity + e.askQuantity;
    if liquidity > 0 then Clamp(TruncDiv((e.bidQuantity - e.askQuantity) * PPM, liquidity)) else 0
  }

  function FeatureState(history: seq<int>, lookback: nat, e: MarketEvent, position: int): ModelState {
    ModelState(e.sequence, e.exchangeTime, e.receiveTime - e.exchangeTime, e.bestBid, e.bestAsk,
               e.bidQuantity, e.askQuantity, ReturnPpm(history, lookback, Midpoint(e)), ImbalancePpm(e), position)
  }

  /** Displayed sizes that are not negative keep the imbalance within one million parts. */
  lemma ImbalanceIsBounded(e: MarketEvent)
    requires e.bidQuantity >= 0 && e.askQuantity >= 0
    ensures -PPM <= ImbalancePpm(e) <= PPM
  {
    var liquidity, difference := e.bidQuantity + e.askQuantity, e.bidQuantity - e.askQuantity;
    if liquidity > 0 {
      DivMono(0, Magnitude(difference) * PPM, liquidity);
      DivMono(Magnitude(difference) * PPM, PPM * liquidity, liquidity);
      assert PPM * liquidity == liquidity * PPM;
      DivUnique(PPM * liquidity, liquidity, PPM);
      assert (-difference) * PPM == -(difference * PPM);
    }
  }

  /** A ratio in parts per million, rounded toward zero and held within 64 bits. */
  predicate IsPpm(ratio: int, part: int, whole: int) {
    && INT64_MIN <= ratio <= INT64_MAX
    && (part >= 0 ==> ratio >= 0 && whole * ratio <= part * PPM && (part * PPM < whole * (ratio + 1) || ratio == INT64_MAX))
    && (part <= 0 ==> ratio <= 0 && part * PPM <= whole * ratio && (whole * (ratio - 1) < part * PPM || ratio == INT64_MIN))
  }

  lemma ClampedRatio(part: int, whole: int)
    requires whole > 0
    ensures IsPpm(Clamp(TruncDiv(part * PPM, whole)), part, whole)
  {
    var quotient := TruncDiv(part * PPM, whole);
    TruncDivBounds(part * PPM, whole);
    DivMono(0, Magnitude(part * PPM), whole);
    DivUnique(0, whole, 0);
    assert whole * (quotient + 1) == whole * quotient + whole && whole * (quotient - 1) == whole * quotient - whole;
    if quotient > INT64_MAX {
      MulMono(whole, INT64_MAX, quotient);
    } else if quotient < INT64_MIN {
      MulMono(whole, quotient, INT64_MIN);
    }
  }

  /** The features of an event: the return against the midpoint `lookback` updates earlier, positive when
      the price rose; the imbalance of the displayed sizes, positive when more is bid; both zero when
      there is nothing to compare with. */
  lemma FeaturesAreExact(history: seq<int>, lookback: nat, e: MarketEvent, position: int)
    requires lookback > 0 && e.bestBid <= e.bestAsk
    ensures var state := FeatureState(history, lookback, e, position);
            && state.sequence == e.sequence && state.exchangeTime == e.exchangeTime
            && state.stateAge == e.receiveTime - e.exchangeTime && state.position == position
            && state.bestBid == e.bestBid && state.bestAsk == e.bestAsk
            && state.bidQuantity == e.bidQuantity && state.askQuantity == e.askQuantity
            && (if |history| >= lookback && history[|history| - lookback] > 0 then
                  var oldest := history[|history| - lookback];
                  IsPpm(state.returnPpm, (e.bestBid + e.bestAsk) / 2 - oldest, oldest)
                else state.returnPpm == 0)
            && (if e.bidQuantity + e.askQuantity > 0 then
                  IsPpm(state.imbalancePpm, e.bidQuantity - e.askQuantity, e.bidQuantity + e.askQuantity)
                else state.imbalancePpm == 0)
  {
    hide IsPpm, Clamp;
    assert Midpoint(e) == (e.bestBid + e.bestAsk) / 2;
    if |history| >= lookback && history[|history| - lookback] > 0 {
      ClampedRatio(Midpoint(e) - history[|history| - lookback], history[|history| - lookback]);
    }
    if e.bidQuantity + e.askQuantity > 0 {
      ClampedRatio(e.bidQuantity - e.askQuantity, e.bidQuantity + e.askQuantity);
    }
  }

  // ----- indices of the ring -----

  lemma ModUnique(n: int, l: int, r: int, q: int)
    requires l > 0 && 0 <= r < l && n == l * q + r
    ensures n % l == r
  {
    DivUnique(n, l, q);
  }

  /** Within one turn of the ring only equal ages share a slot. */
  lemma SlotsDiffer(l: nat, i: nat, j: nat)
    requires l > 0 && i <= j <= i + l
    ensures i % l == j % l <==> i == j || j == i + l
  {
    var q, r := i / l, i % l;
    assert i == l * q + r;
    var d := j - i;
    if r + d < l {
      ModUnique(j, l, r + d, q);
    } else {
      assert l * (q + 1) == l * q + l;
      ModUnique(j, l, r + d - l, q + 1);
    }
  }

  lemma NextSlot(l: nat, n: nat)
    requires l > 0
    ensures (n % l + 1) % l == (n + 1) % l
  {
    var q, r := n / l, n % l;
    assert n == l * q + r;
    if r + 1 < l {
      ModUnique(n + 1, l, r + 1, q);
    } else {
      assert l * (q + 1) == l * q + l;
      ModUnique(n + 1, l, 0, q + 1);
      ModUnique(l, l, 0, 1);
    }
  }

  class FeatureBuilder {
    const midpoints: array<int>
    var nextIndex: nat
    var size: nat
    ghost var history: seq<int>

    ghost predicate Valid()
      reads this, midpoints
    {
      var l := midpoints.Length;
      && l > 0
      && size == Min(|history|, l)
      && nextIndex == |history| % l
      && forall i :: |history| - size <= i < |history| ==> midpoints[i % l] == history[i]
    }

    constructor (lookback: nat)
      requires lookback > 0
      ensures Valid() && fresh(midpoints) && midpoints.Length == lookback && history == []
    {
      midpoints := new int[lookback](i => 0);
      nextIndex, size, history := 0, 0, [];
    }

    /** The features of an event, computed from the ring, are those of the whole history. */
    method Update(e: MarketEvent, position: int) returns (state: ModelState)
      requires Valid()
      modifies this, midpoints
      ensures Valid()
      ensures history == old(history) + [Midpoint(e)]
      ensures state == FeatureState(old(history), midpoints.Length, e, position)
    {
      var l := midpoints.Length;
      var n := |history|;
      var midpoint := e.bestBid + TruncDiv(e.bestAsk - e.bestBid, 2);
      var returnPpm := 0;
      if size == l {
        SlotsDiffer(l, n - l, n);
        var oldest := midpoints[nextIndex];
        assert oldest == history[n - l];
        if oldest > 0 {
          returnPpm := Clamp(TruncDiv((midpoint - oldest) * PPM, oldest));
        }
      }
      midpoints[nextIndex] := midpoint;
      history := history + [midpoint];
      NextSlot(l, n);
      nextIndex := (nextIndex + 1) % l;
      size := Min(size + 1, l);
      forall i | |history| - size <= i < n
        ensures midpoints[i % l] == history[i]
      {
        SlotsDiffer(l, i, n);
      }

      var imbalancePpm := 0;
      var liquidity := e.bidQuantity + e.askQuantity;
      if liquidity > 0 {
        imbalancePpm := Clamp(TruncDiv((e.bidQuantity - e.askQuantity) * PPM, liquidity));
      }
      state := ModelState(e.sequence, e.exchangeTime, e.receiveTime - e.exchangeTime, e.bestBid, e.bestAsk,
                          e.bidQuantity, e.askQuantity, returnPpm, imbalancePpm, position);
    }
  }

  /** A builder without lookback is refused. */
  method MakeFeatureBuilder(lookback: nat) returns (builder: Option<FeatureBuilder>)
    ensures builder.Some? <==> lookback > 0
    ensures builder.Some? ==> builder.value.Valid() && fresh(builder.value) && fresh(builder.value.midpoints)
                              && builder.value.midpoints.Length == lookback && builder.value.history == []
  {
    if lookback == 0 {
      return None;
    }
    var b := new FeatureBuilder(lookback);
    builder := Some(b);
  }
}
