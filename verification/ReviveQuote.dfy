/** Finding the chain's value unit by galloping and bisection against a balance oracle, and quoting a
    call value rounded up to whole units. */
module ReviveQuote {
  import opened Wrappers

  datatype Quote = Quote(requestedContractValue: int, nativeCallValue: int, contractValuePerNativeUnit: int,
                         submittedContractValue: int, excessContractValue: int, dust: int)

  datatype Error = NegativeValue(requested: int)

  /** The runtime call `newBalanceWithDust`: a contract value is worth value / unit native units on
      top of a base balance, with value % unit left as dust. Calls are counted. */
  class ReviveApi {
    const base: nat
    const unit: nat
    var calls: nat

    constructor (base: nat, unit: nat)
      requires unit >= 1
      ensures this.base == base && this.unit == unit && calls == 0
    {
      this.base, this.unit, calls := base, unit, 0;
    }

    method NewBalanceWithDust(contractValue: nat) returns (balance: int, dust: int)
      requires unit >= 1
      modifies this`calls
      ensures balance == base + contractValue / unit && dust == contractValue % unit
      ensures calls == old(calls) + 1
    {
      calls := calls + 1;
      balance, dust := base + contractValue / unit, contractValue % unit;
    }
  }

  function Pow2(k: nat): (p: nat)
    ensures p >= 1
  {
    if k == 0 then 1 else 2 * Pow2(k - 1)
  }

  /** k is the least number with unit <= 2^k. */
  ghost predicate LeastExponent(unit: nat, k: nat) {
    unit <= Pow2(k) && (k > 0 ==> Pow2(k - 1) < unit)
  }

  lemma {:induction false} PowGrows(j: nat, k: nat)
    requires j <= k
    ensures Pow2(j) <= Pow2(k)
  {
    if j < k {
      PowGrows(j, k - 1);
    }
  }

  lemma PowOne(k: nat)
    ensures Pow2(k) == 1 <==> k == 0
  {}

  /** There is only one such k. */
  lemma LeastExponentUnique(unit: nat, j: nat, k: nat)
    requires LeastExponent(unit, j) && LeastExponent(unit, k)
    ensures j == k
  {
    if j < k {
      PowGrows(j, k - 1);
    } else if k < j {
      PowGrows(k, j - 1);
    }
  }

  lemma WholeUnits(v: nat, unit: nat)
    requires unit >= 1
    ensures v / unit > 0 <==> v >= unit
  {
    if v < unit {
      assert v / unit == 0;
    } else {
      assert v == (v / unit) * unit + v % unit;
    }
  }

  /** Gallop to a power of two that buys a unit, then bisect. Finds the unit exactly, with 2k + 1
      probes where 2^k is the least power of two that buys a unit. */
  method DeriveContractValuePerNativeUnit(api: ReviveApi, nativeBalanceBase: int) returns (found: int, ghost k: nat)
    requires api.unit >= 1 && nativeBalanceBase == api.base
    modifies api`calls
    ensures found == api.unit
    ensures LeastExponent(api.unit, k) && api.calls == old(api.calls) + 2 * k + 1
  {
    var high := 1;
    k := 0;
    var balance, dust := api.NewBalanceWithDust(high);
    WholeUnits(high, api.unit);
    while balance <= nativeBalanceBase
      invariant high == Pow2(k) && (k > 0 ==> Pow2(k - 1) < api.unit)
      invariant balance > nativeBalanceBase <==> high >= api.unit
      invariant api.calls == old(api.calls) + k + 1
      decreases api.unit - high
    {
      high := high * 2;
      k := k + 1;
      balance, dust := api.NewBalanceWithDust(high);
      WholeUnits(high, api.unit);
    }
    var low := 0;
    ghost var left: nat := k;
    while high - low > 1
      invariant 0 <= low < api.unit <= high
      invariant left <= k && high - low == Pow2(left)
      invariant api.calls == old(api.calls) + k + 1 + (k - left)
      decreases left
    {
      var mid := (low + high) / 2;
      assert high - low == 2 * Pow2(left - 1);
      balance, dust := api.NewBalanceWithDust(mid);
      WholeUnits(mid, api.unit);
      if balance > nativeBalanceBase {
        high := mid;
      } else {
        low := mid;
      }
      left := left - 1;
    }
    PowOne(left);
    found := high;
  }

  lemma CeilingFacts(requested: nat, unit: nat, value: int)
    requires unit >= 1 && value == requested / unit + (if requested % unit > 0 then 1 else 0)
    ensures 0 <= value * unit - requested < unit
    ensures forall n: nat :: n * unit >= requested <==> n >= value
  {
    var q, d := requested / unit, requested % unit;
    assert requested == q * unit + d;
    assert (q + 1) * unit == q * unit + unit;
    forall n: nat ensures n * unit >= requested <==> n >= value {
      if n >= value {
        assert n * unit >= value * unit;
      } else {
        assert n <= value - 1;
        assert n * unit <= (value - 1) * unit;
        assert (value - 1) * unit == value * unit - unit;
      }
    }
  }

  /** The quote: the least whole number of native units that covers the request, what it submits,
      and the excess, which is less than one unit. */
  method QuoteNativeCallValue(api: ReviveApi, requested: int) returns (r: Result<Quote, Error>)
    requires api.unit >= 1
    modifies api`calls
    ensures r.Failure? <==> requested < 0
    ensures r.Failure? ==> api.calls == old(api.calls)
    ensures r.Success? ==> exists k: nat :: LeastExponent(api.unit, k) && api.calls == old(api.calls) + 2 * k + 3
    ensures r.Success? ==>
      var q := r.value;
      && q.requestedContractValue == requested && q.contractValuePerNativeUnit == api.unit
      && (forall n: nat :: n * api.unit >= requested <==> n >= q.nativeCallValue)
      && q.nativeCallValue >= 0
      && q.submittedContractValue == q.nativeCallValue * api.unit
      && q.excessContractValue == q.submittedContractValue - requested
      && 0 <= q.excessContractValue < api.unit
      && (q.excessContractValue == 0 <==> q.dust == 0)
  {
    if requested < 0 {
      return Failure(NegativeValue(requested));
    }
    var nativeBalanceBase, _ := api.NewBalanceWithDust(0);
    var withRequested, dust := api.NewBalanceWithDust(requested);
    assert 0 / api.unit == 0;
    var unit, _ := DeriveContractValuePerNativeUnit(api, nativeBalanceBase);
    var nativeWholeUnits := withRequested - nativeBalanceBase;
    var nativeCallValue := if requested == 0 then 0 else nativeWholeUnits + (if dust > 0 then 1 else 0);
    assert requested == (requested / api.unit) * api.unit + dust;
    CeilingFacts(requested, api.unit, nativeCallValue);
    var submitted := nativeCallValue * unit;
    r := Success(Quote(requested, nativeCallValue, unit, submitted, submitted - requested, dust));
  }
}
