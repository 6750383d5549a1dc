/** Splitting a target quantity over ranked quotes. Prices and quantities are
    exact; the loops are proved against closed forms, and the closed forms
    against what the strategies promise. */
module Fill {
  import opened Domain
  import opened Permutations

  // ---------------------------------------------------------------------
  // Shared steps
  // ---------------------------------------------------------------------

  ghost function Quantities(quotes: seq<RankedQuote>): (q: seq<nat>) {
    seq(|quotes|, i requires 0 <= i < |quotes| => quotes[i].quote.quantity)
  }

  ghost function Available(quotes: seq<RankedQuote>): (t: int) {
    Sum(Quantities(quotes))
  }

  ghost function Filled(legs: seq<Allocation>): nat {
    if legs == [] then 0 else Filled(legs[..|legs| - 1]) + legs[|legs| - 1].quantity
  }

  ghost function Cost(legs: seq<Allocation>): nat {
    if legs == [] then 0
    else Cost(legs[..|legs| - 1]) + Value(legs[|legs| - 1].price, legs[|legs| - 1].quantity)
  }

  ghost function Value(price: Price, quantity: int): (v: int)
    ensures quantity >= 0 ==> v >= 0
    ensures quantity == 0 ==> v == 0
  {
    price * quantity
  }

  lemma {:induction false} SumStep(xs: seq<int>, n: nat)
    requires n < |xs|
    ensures Sum(xs[..n + 1]) == Sum(xs[..n]) + xs[n]
  {
    assert xs[..n + 1][..n] == xs[..n];
  }

  lemma {:induction false} SumNonNegative(xs: seq<int>)
    requires forall i :: 0 <= i < |xs| ==> xs[i] >= 0
    ensures Sum(xs) >= 0
    ensures forall n :: 0 <= n <= |xs| ==> Sum(xs[..n]) <= Sum(xs)
  {
    if xs != [] {
      var init := xs[..|xs| - 1];
      SumNonNegative(init);
      forall n | 0 <= n <= |xs| ensures Sum(xs[..n]) <= Sum(xs) {
        if n < |xs| {
          assert init[..n] == xs[..n];
        } else {
          assert xs[..n] == xs;
        }
      }
    }
  }

  method TotalQuotedQuantity(quotes: seq<RankedQuote>) returns (total: nat)
    ensures total == Available(quotes)
  {
    total := 0;
    for i := 0 to |quotes|
      invariant total == Sum(Quantities(quotes)[..i])
    {
      SumStep(Quantities(quotes), i);
      total := total + quotes[i].quote.quantity;
    }
    assert Quantities(quotes)[..|quotes|] == Quantities(quotes);
  }

  /** The quantity to fill, or why the mode refuses. */
  function EnforceMode(mode: FillMode, target: Quantity, available: Quantity): (r: Result<Quantity, DomainError>)
    ensures r.Ok? ==> r.value == Min(target, available)
    ensures mode.AllOrNothing? || mode.FillOrKill? ==> (r.Ok? <==> target <= available)
    ensures mode.MinQuantity? ==> (r.Ok? <==> mode.minimum <= target && mode.minimum <= available)
    ensures mode.BestEffort? ==> (r.Ok? <==> available > 0)
    ensures r.Err? ==> r.error == if mode.MinQuantity? then MinQuantityNotMet(Min(target, available), mode.minimum)
                                  else InsufficientLiquidity(available, target)
  {
    match mode
    case AllOrNothing =>
      if available < target then Err(InsufficientLiquidity(available, target)) else Ok(target)
    case FillOrKill =>
      if available < target then Err(InsufficientLiquidity(available, target)) else Ok(target)
    case MinQuantity(minimum) =>
      var fillable := Min(target, available);
      if fillable < minimum then Err(MinQuantityNotMet(fillable, minimum)) else Ok(fillable)
    case BestEffort =>
      if available == 0 then Err(InsufficientLiquidity(available, target)) else Ok(Min(target, available))
  }

  method ValidateAllocationSum(legs: seq<Allocation>, expected: Quantity) returns (r: Result<(), DomainError>)
    ensures r == if Filled(legs) == expected then Ok(()) else Err(AllocationMismatch(Filled(legs), expected))
  {
    var total: nat := 0;
    for i := 0 to |legs|
      invariant total == Filled(legs[..i])
    {
      assert legs[..i + 1][..i] == legs[..i];
      total := total + legs[i].quantity;
    }
    assert legs[..|legs|] == legs;
    if total != expected {
      return Err(AllocationMismatch(total, expected));
    }
    return Ok(());
  }

  function NewAllocation(quote: Quote, quantity: Quantity): (r: Result<Allocation, DomainError>)
    ensures r.Ok? ==> Names(r.value, quote, quantity)
  {
    if quantity == 0 then Err(InvalidQuantity)
    else if quote.price == 0 then Err(InvalidPrice)
    else Ok(Allocation(quote.venue, quote.id, quantity, quote.price))
  }

  /** The allocations that the fills of the first n quotes give: one for every
      quote with a positive fill. */
  ghost function Legs(quotes: seq<RankedQuote>, fills: seq<int>, n: nat): (legs: seq<Allocation>)
    requires n <= |quotes| == |fills|
  {
    if n == 0 then []
    else
      var q := quotes[n - 1].quote;
      var before := Legs(quotes, fills, n - 1);
      if fills[n - 1] > 0 then before + [Allocation(q.venue, q.id, fills[n - 1], q.price)] else before
  }

  /** One of the first n quotes is filled although it has no positive price. */
  ghost predicate Unpriced(quotes: seq<RankedQuote>, fills: seq<int>, n: nat)
    requires n <= |quotes| == |fills|
  {
    exists i :: 0 <= i < n && fills[i] > 0 && quotes[i].quote.price == 0
  }

  ghost predicate AllPriced(quotes: seq<RankedQuote>) {
    forall i :: 0 <= i < |quotes| ==> quotes[i].quote.price > 0
  }

  ghost function Costs(quotes: seq<RankedQuote>, fills: seq<int>): (c: seq<int>)
    requires |quotes| == |fills|
  {
    seq(|fills|, i requires 0 <= i < |fills| => Value(quotes[i].quote.price, fills[i]))
  }

  /** The allocations carry exactly the fills: same total, same cost. */
  lemma {:induction false} LegsCarryFills(quotes: seq<RankedQuote>, fills: seq<int>, n: nat)
    requires n <= |quotes| == |fills|
    requires forall i :: 0 <= i < n ==> fills[i] >= 0
    ensures Filled(Legs(quotes, fills, n)) == Sum(fills[..n])
    ensures Cost(Legs(quotes, fills, n)) == Sum(Costs(quotes, fills)[..n])
  {
    if n > 0 {
      hide Filled, Cost, Value;
      LegsCarryFills(quotes, fills, n - 1);
      SumStep(fills, n - 1);
      SumStep(Costs(quotes, fills), n - 1);
      var before := Legs(quotes, fills, n - 1);
      if fills[n - 1] > 0 {
        var q := quotes[n - 1].quote;
        AppendLeg(before, Allocation(q.venue, q.id, fills[n - 1], q.price));
      } else {
        assert Costs(quotes, fills)[n - 1] == 0;
        assert Legs(quotes, fills, n) == before;
      }
    }
  }

  lemma {:induction false} AppendLeg(legs: seq<Allocation>, leg: Allocation)
    ensures Filled(legs + [leg]) == Filled(legs) + leg.quantity
    ensures Cost(legs + [leg]) == Cost(legs) + Value(leg.price, leg.quantity)
  {
    assert (legs + [leg])[..|legs|] == legs;
  }

  lemma {:induction false} LegsOfNothing(quotes: seq<RankedQuote>, fills: seq<int>, n: nat, m: nat)
    requires n <= m <= |quotes| == |fills|
    requires forall i :: n <= i < m ==> fills[i] <= 0
    ensures Legs(quotes, fills, m) == Legs(quotes, fills, n)
  {
    if n < m {
      LegsOfNothing(quotes, fills, n, m - 1);
    }
  }

  ghost function Positive(fills: seq<int>): nat -> bool {
    (i: nat) => i < |fills| && fills[i] > 0
  }

  /** The allocations name the first n quotes with a positive fill, in rank
      order and each once: the venue that quoted, its quote and its price. */
  ghost predicate MadeFrom(quotes: seq<RankedQuote>, fills: seq<int>, n: nat, legs: seq<Allocation>, picked: seq<nat>)
    requires n <= |quotes| == |fills|
  {
    && Picks(picked, n, Positive(fills))
    && |legs| == |picked|
    && forall k :: 0 <= k < |legs| ==> Names(legs[k], quotes[picked[k]].quote, fills[picked[k]])
  }

  predicate Names(leg: Allocation, quote: Quote, amount: int) {
    leg.venue == quote.venue && leg.quoteId == quote.id && leg.price == quote.price && leg.quantity == amount
  }

  lemma {:induction false} LegsNameQuotes(quotes: seq<RankedQuote>, fills: seq<int>, n: nat) returns (picked: seq<nat>)
    requires n <= |quotes| == |fills|
    ensures MadeFrom(quotes, fills, n, Legs(quotes, fills, n), picked)
  {
    hide Picks, Positive, MadeFrom;
    if n == 0 {
      picked := [];
      NothingNamed(quotes, fills);
    } else {
      var before := LegsNameQuotes(quotes, fills, n - 1);
      picked := if fills[n - 1] > 0 then before + [n - 1] else before;
      NamedOneMore(quotes, fills, n - 1, Legs(quotes, fills, n - 1), before);
    }
  }

  lemma {:induction false} NothingNamed(quotes: seq<RankedQuote>, fills: seq<int>)
    requires |quotes| == |fills|
    ensures MadeFrom(quotes, fills, 0, [], [])
  {
  }

  lemma {:induction false} NamedOneMore(quotes: seq<RankedQuote>, fills: seq<int>, n: nat, legs: seq<Allocation>, picked: seq<nat>)
    requires n < |quotes| == |fills| && MadeFrom(quotes, fills, n, legs, picked)
    ensures var q := quotes[n].quote;
            if fills[n] > 0 then MadeFrom(quotes, fills, n + 1, legs + [Allocation(q.venue, q.id, fills[n], q.price)], picked + [n])
            else MadeFrom(quotes, fills, n + 1, legs, picked)
  {
    PicksStep(picked, n, Positive(fills));
    assert Positive(fills)(n) <==> fills[n] > 0;
    PickedBelow(picked, n, Positive(fills));
    hide Picks, Positive;
    var q := quotes[n].quote;
    assert fills[n] > 0 ==> Names(Allocation(q.venue, q.id, fills[n], q.price), q, fills[n]);
    hide Names;
  }

  ghost predicate DistinctIds(quotes: seq<RankedQuote>) {
    forall i, j :: 0 <= i < j < |quotes| ==> quotes[i].quote.id != quotes[j].quote.id
  }

  /** With distinct ids a quote has an allocation exactly when its fill is
      positive, and then just one, which carries that fill. */
  lemma {:induction false} OneLegPerQuote(quotes: seq<RankedQuote>, fills: seq<int>, legs: seq<Allocation>, picked: seq<nat>, i: nat)
    requires i < |quotes| == |fills| && DistinctIds(quotes) && MadeFrom(quotes, fills, |quotes|, legs, picked)
    ensures (exists k :: 0 <= k < |legs| && legs[k].quoteId == quotes[i].quote.id) <==> fills[i] > 0
    ensures forall k :: 0 <= k < |legs| && legs[k].quoteId == quotes[i].quote.id ==>
              legs[k].quantity == fills[i] && legs[k].venue == quotes[i].quote.venue
    ensures forall k, l :: 0 <= k < l < |legs| ==> legs[k].quoteId != legs[l].quoteId
  {
    forall k, l | 0 <= k < l < |legs| ensures legs[k].quoteId != legs[l].quoteId {
      assert picked[k] < picked[l];
    }
    if fills[i] > 0 {
      assert i in picked;
      var k :| 0 <= k < |picked| && picked[k] == i;
      assert legs[k].quoteId == quotes[i].quote.id;
    }
  }

  /** One loop step: pushes the allocation of a quote with a positive amount. */
  method PushAllocation(quotes: seq<RankedQuote>, ghost fills: seq<int>, i: nat, amount: Quantity, legs: seq<Allocation>)
    returns (r: Result<seq<Allocation>, DomainError>)
    requires i < |quotes| == |fills| && amount == fills[i]
    requires legs == Legs(quotes, fills, i) && !Unpriced(quotes, fills, i)
    ensures r == if Unpriced(quotes, fills, i + 1) then Err(InvalidPrice) else Ok(Legs(quotes, fills, i + 1))
  {
    if amount == 0 {
      return Ok(legs);
    }
    var leg := NewAllocation(quotes[i].quote, amount);
    if leg.Err? {
      return Err(leg.error);
    }
    return Ok(legs + [leg.value]);
  }

  // ---------------------------------------------------------------------
  // Best-price fill
  // ---------------------------------------------------------------------

  /** What is left of `amount` after the first i quotes. */
  ghost function Left(quantities: seq<nat>, amount: nat, i: nat): (r: nat)
    requires i <= |quantities|
  {
    if amount <= Sum(quantities[..i]) then 0 else amount - Sum(quantities[..i])
  }

  ghost function GreedyFills(quantities: seq<nat>, amount: nat): (f: seq<int>)
    ensures |f| == |quantities|
    ensures forall i :: 0 <= i < |f| ==> 0 <= f[i] <= quantities[i]
  {
    seq(|quantities|, i requires 0 <= i < |quantities| => Min(quantities[i], Left(quantities, amount, i)))
  }

  /** What filling greedily from the front returns. */
  ghost function BestPriceOutcome(quotes: seq<RankedQuote>, target: Quantity, mode: FillMode): (r: Result<seq<Allocation>, DomainError>)
  {
    if target == 0 || quotes == [] then Err(InvalidQuantity)
    else
      SumNonNegative(Quantities(quotes));
      var effective :- EnforceMode(mode, target, Available(quotes));
      GreedyOutcome(quotes, effective)
  }

  /** The greedy fill of an amount; a quote without a price cannot be filled. */
  ghost function GreedyOutcome(quotes: seq<RankedQuote>, effective: nat): (r: Result<seq<Allocation>, DomainError>) {
    var fills := GreedyFills(Quantities(quotes), effective);
    if Unpriced(quotes, fills, |quotes|) then Err(InvalidPrice) else Ok(Legs(quotes, fills, |quotes|))
  }

  lemma {:induction false} LeftStep(quantities: seq<nat>, amount: nat, i: nat)
    requires i < |quantities|
    ensures Left(quantities, amount, i + 1) == Left(quantities, amount, i) - Min(quantities[i], Left(quantities, amount, i))
    ensures Sum(quantities[..i + 1]) == Sum(quantities[..i]) + quantities[i]
  {
    SumStep(quantities, i);
  }

  lemma {:induction false} GreedyPrefix(quantities: seq<nat>, amount: nat, n: nat)
    requires n <= |quantities|
    ensures Sum(GreedyFills(quantities, amount)[..n]) + Left(quantities, amount, n) == amount
  {
    if n > 0 {
      GreedyPrefix(quantities, amount, n - 1);
      SumStep(GreedyFills(quantities, amount), n - 1);
      LeftStep(quantities, amount, n - 1);
    }
  }

  /** The greedy fills add up to the amount whenever the quotes can cover it. */
  lemma {:induction false} GreedyFillsTotal(quantities: seq<nat>, amount: nat)
    requires amount <= Sum(quantities)
    ensures Sum(GreedyFills(quantities, amount)) == amount
  {
    var f := GreedyFills(quantities, amount);
    GreedyPrefix(quantities, amount, |quantities|);
    assert f[..|quantities|] == f && quantities[..|quantities|] == quantities;
  }

  /** Once nothing is left, every later quote stays unfilled. */
  lemma {:induction false} NothingLeftLater(quantities: seq<nat>, amount: nat, i: nat, j: nat)
    requires i <= j <= |quantities| && Left(quantities, amount, i) == 0
    ensures Left(quantities, amount, j) == 0
  {
    if i < j {
      NothingLeftLater(quantities, amount, i, j - 1);
      LeftStep(quantities, amount, j - 1);
    }
  }

  method BestPriceFill(quotes: seq<RankedQuote>, target: Quantity, mode: FillMode) returns (r: Result<seq<Allocation>, DomainError>)
    ensures r == BestPriceOutcome(quotes, target, mode)
  {
    if target == 0 || quotes == [] {
      return Err(InvalidQuantity);
    }
    var available := TotalQuotedQuantity(quotes);
    var enforced := EnforceMode(mode, target, available);
    if enforced.Err? {
      return Err(enforced.error);
    }
    r := FillInOrder(quotes, enforced.value);
  }

  /** The loop of the best-price fill and its final check. */
  method FillInOrder(quotes: seq<RankedQuote>, effective: Quantity) returns (r: Result<seq<Allocation>, DomainError>)
    requires effective <= Available(quotes)
    ensures r == GreedyOutcome(quotes, effective)
  {
    ghost var quantities := Quantities(quotes);
    ghost var fills := GreedyFills(quantities, effective);
    var remaining := effective;
    var legs := [];
    var i := 0;
    while i < |quotes| && remaining != 0
      invariant i <= |quotes|
      invariant remaining == Left(quantities, effective, i)
      invariant legs == Legs(quotes, fills, i) && !Unpriced(quotes, fills, i)
    {
      var fill := Min(quotes[i].quote.quantity, remaining);
      LeftStep(quantities, effective, i);
      assert fills[i] == fill;
      if fill > 0 {
        remaining := remaining - fill;
      }
      var pushed := PushAllocation(quotes, fills, i, fill, legs);
      if pushed.Err? {
        return Err(pushed.error);
      }
      legs := pushed.value;
      i := i + 1;
    }
    RestUnfilled(quotes, effective, i);
    GreedyLegsTotal(quotes, effective);
    var check := ValidateAllocationSum(legs, effective);
    r := match check case Err(e) => Err(e) case Ok(_) => Ok(legs);
  }

  lemma {:induction false} RestUnfilled(quotes: seq<RankedQuote>, effective: nat, i: nat)
    requires i <= |quotes| && (i < |quotes| ==> Left(Quantities(quotes), effective, i) == 0)
    ensures var fills := GreedyFills(Quantities(quotes), effective);
            && Legs(quotes, fills, |quotes|) == Legs(quotes, fills, i)
            && (Unpriced(quotes, fills, |quotes|) ==> Unpriced(quotes, fills, i))
  {
    var fills := GreedyFills(Quantities(quotes), effective);
    forall k | i <= k < |quotes| ensures fills[k] == 0 {
      NothingLeftLater(Quantities(quotes), effective, i, k);
    }
    LegsOfNothing(quotes, fills, i, |quotes|);
  }

  lemma {:induction false} GreedyLegsTotal(quotes: seq<RankedQuote>, effective: nat)
    requires effective <= Available(quotes)
    ensures Filled(Legs(quotes, GreedyFills(Quantities(quotes), effective), |quotes|)) == effective
  {
    var fills := GreedyFills(Quantities(quotes), effective);
    GreedyFillsTotal(Quantities(quotes), effective);
    LegsCarryFills(quotes, fills, |quotes|);
    assert fills[..|quotes|] == fills;
  }

  /** A successful fill covers the target as far as the quotes reach, and it is
      the greedy fill of that amount. */
  lemma {:induction false} BestPriceFillTotal(quotes: seq<RankedQuote>, target: Quantity, mode: FillMode)
    requires BestPriceOutcome(quotes, target, mode).Ok?
    ensures var legs := BestPriceOutcome(quotes, target, mode).value;
            && quotes != []
            && Filled(legs) == (if target <= Available(quotes) then target else Available(quotes))
            && legs == Legs(quotes, GreedyFills(Quantities(quotes), Filled(legs)), |quotes|)
  {
    SumNonNegative(Quantities(quotes));
    GreedyLegsTotal(quotes, Min(target, Available(quotes)));
  }

  /** The allocations of a successful fill: the quotes are used up in rank order,
      each allocation names the quote it comes from, and together they cover
      the target as far as the quotes reach. */
  lemma {:induction false} BestPriceAllocations(quotes: seq<RankedQuote>, target: Quantity, mode: FillMode)
    returns (fills: seq<int>, picked: seq<nat>)
    requires BestPriceOutcome(quotes, target, mode).Ok?
    ensures |fills| == |quotes|
    ensures MadeFrom(quotes, fills, |quotes|, BestPriceOutcome(quotes, target, mode).value, picked)
    ensures forall i :: 0 <= i < |fills| ==> 0 <= fills[i] <= quotes[i].quote.quantity
    ensures forall i, j :: 0 <= i < j < |fills| && fills[i] < quotes[i].quote.quantity ==> fills[j] == 0
    ensures Sum(fills) == if target <= Available(quotes) then target else Available(quotes)
  {
    hide Legs;
    SumNonNegative(Quantities(quotes));
    var effective := Min(target, Available(quotes));
    fills := GreedyFills(Quantities(quotes), effective);
    picked := LegsNameQuotes(quotes, fills, |quotes|);
    GreedyFillsTotal(Quantities(quotes), effective);
    hide MadeFrom;
    GreedyInOrder(Quantities(quotes), effective);
  }

  /** A quote that is not used up is the last one used. */
  lemma {:induction false} GreedyInOrder(quantities: seq<nat>, amount: nat)
    ensures var fills := GreedyFills(quantities, amount);
            forall i, j :: 0 <= i < j < |fills| && fills[i] < quantities[i] ==> fills[j] == 0
  {
    var fills := GreedyFills(quantities, amount);
    forall i, j | 0 <= i < j < |fills| && fills[i] < quantities[i] ensures fills[j] == 0 {
      LeftStep(quantities, amount, i);
      NothingLeftLater(quantities, amount, i + 1, j);
    }
  }

  /** Why it refuses: nothing to do, the mode, or a quote without a price that
      would have to be used. */
  lemma {:induction false} BestPriceRefusals(quotes: seq<RankedQuote>, target: Quantity, mode: FillMode)
    ensures var r, a := BestPriceOutcome(quotes, target, mode), Available(quotes);
            && a >= 0
            && (r == Err(InvalidQuantity) <==> target == 0 || quotes == [])
            && (target > 0 && quotes != [] ==>
                  && (r == Err(InsufficientLiquidity(a, target)) <==>
                        ((mode.AllOrNothing? || mode.FillOrKill?) && a < target) || (mode.BestEffort? && a == 0))
                  && (mode.MinQuantity? ==>
                        (r == Err(MinQuantityNotMet(Min(target, a), mode.minimum)) <==> target < mode.minimum || a < mode.minimum)))
            && (r == Err(InvalidPrice) ==>
                  exists i :: 0 <= i < |quotes| && quotes[i].quote.price == 0 && quotes[i].quote.quantity > 0
                              && Sum(Quantities(quotes)[..i]) < Min(target, a))
            && (r.Ok? ==>
                  forall i :: 0 <= i < |quotes| && quotes[i].quote.quantity > 0 && Sum(Quantities(quotes)[..i]) < Min(target, a) ==>
                    quotes[i].quote.price > 0)
            && (r.Err? ==> r.error in {InvalidQuantity, InvalidPrice, InsufficientLiquidity(a, target)} || r.error.MinQuantityNotMet?)
  {
    hide Legs;
    SumNonNegative(Quantities(quotes));
    if target > 0 && quotes != [] && EnforceMode(mode, target, Available(quotes)).Ok? {
      var effective := Min(target, Available(quotes));
      var fills := GreedyFills(Quantities(quotes), effective);
      if i :| 0 <= i < |quotes| && fills[i] > 0 && quotes[i].quote.price == 0 {
        assert Sum(Quantities(quotes)[..i]) < effective;
      } else {
        forall i | 0 <= i < |quotes| && quotes[i].quote.quantity > 0 && Sum(Quantities(quotes)[..i]) < effective
          ensures quotes[i].quote.price > 0
        {
          assert fills[i] > 0;
        }
      }
    }
  }

  /** Whenever all-or-nothing succeeds, the other modes return the very same
      allocations. */
  lemma {:induction false} ModesAgree(quotes: seq<RankedQuote>, target: Quantity, minimum: Quantity)
    requires BestPriceOutcome(quotes, target, AllOrNothing).Ok? && minimum <= target
    ensures var all := BestPriceOutcome(quotes, target, AllOrNothing);
            && BestPriceOutcome(quotes, target, FillOrKill) == all
            && BestPriceOutcome(quotes, target, BestEffort) == all
            && BestPriceOutcome(quotes, target, MinQuantity(minimum)) == all
  {
  }

  /** Cutting the ranking to its first k quotes leaves a best-effort fill
      unchanged exactly when those k quotes can cover it. */
  lemma {:induction false} TruncationHarmless(quotes: seq<RankedQuote>, target: Quantity, k: nat)
    requires 1 <= k <= |quotes| && AllPriced(quotes) && target > 0
    ensures BestPriceOutcome(quotes[..k], target, BestEffort) == BestPriceOutcome(quotes, target, BestEffort) <==>
            (Available(quotes[..k]) >= target || Available(quotes[..k]) == Available(quotes))
  {
    hide Legs;
    assert Quantities(quotes[..k]) == Quantities(quotes)[..k];
    SumNonNegative(Quantities(quotes));
    SumNonNegative(Quantities(quotes[..k]));
    BestEffortOnPriced(quotes, target);
    BestEffortOnPriced(quotes[..k], target);
    hide BestPriceOutcome;
    if Available(quotes[..k]) >= target || Available(quotes[..k]) == Available(quotes) {
      TruncatedLegs(quotes, Min(target, Available(quotes)), k);
    } else if Available(quotes[..k]) > 0 {
      BestPriceFillTotal(quotes, target, BestEffort);
      BestPriceFillTotal(quotes[..k], target, BestEffort);
    }
  }

  /** Best effort on a book of priced quotes: fails only if nothing is quoted. */
  lemma {:induction false} BestEffortOnPriced(quotes: seq<RankedQuote>, target: Quantity)
    requires quotes != [] && AllPriced(quotes) && target > 0
    ensures Available(quotes) >= 0
    ensures BestPriceOutcome(quotes, target, BestEffort) ==
            if Available(quotes) == 0 then Err(InsufficientLiquidity(0, target))
            else Ok(Legs(quotes, GreedyFills(Quantities(quotes), Min(target, Available(quotes))), |quotes|))
  {
    hide Legs, GreedyFills, Sum;
    SumNonNegative(Quantities(quotes));
    if Available(quotes) > 0 {
      assert !Unpriced(quotes, GreedyFills(Quantities(quotes), Min(target, Available(quotes))), |quotes|);
    }
  }

  lemma {:induction false} TruncatedLegs(quotes: seq<RankedQuote>, effective: nat, k: nat)
    requires k <= |quotes| && effective <= Available(quotes[..k])
    ensures Legs(quotes, GreedyFills(Quantities(quotes), effective), |quotes|) ==
            Legs(quotes[..k], GreedyFills(Quantities(quotes[..k]), effective), k)
  {
    var q, qk := Quantities(quotes), Quantities(quotes[..k]);
    var f, fk := GreedyFills(q, effective), GreedyFills(qk, effective);
    assert qk == q[..k];
    forall i | 0 <= i < k ensures f[i] == fk[i] {
      assert q[..i] == qk[..i];
    }
    RestUnfilled(quotes, effective, k);
    LegsOfPrefix(quotes, f, fk, k);
  }

  lemma {:induction false} LegsOfPrefix(quotes: seq<RankedQuote>, f: seq<int>, fk: seq<int>, n: nat)
    requires n <= |fk| <= |quotes| == |f|
    requires forall i :: 0 <= i < |fk| ==> f[i] == fk[i]
    ensures Legs(quotes, f, n) == Legs(quotes[..|fk|], fk, n)
  {
    if n > 0 {
      LegsOfPrefix(quotes, f, fk, n - 1);
    }
  }

  // ---------------------------------------------------------------------
  // Pro-rata fill
  // ---------------------------------------------------------------------

  // The decimal division yields a whole number of smallest units. Which way it
  // rounds is up to the decimal library, so all three ways are kept.
  datatype Rounding = Down | HalfUp | HalfEven

  function Divide(rounding: Rounding, a: nat, b: nat): (r: nat)
    requires b > 0
  {
    var d, rest := a / b, a % b;
    match rounding
    case Down => d
    case HalfUp => if 2 * rest >= b then d + 1 else d
    case HalfEven => if 2 * rest > b || (2 * rest == b && d % 2 == 1) then d + 1 else d
  }

  // How far, in halves of a unit times b, a rounded quotient may lie below and
  // above the exact one.
  function Undershoot(rounding: Rounding, b: nat): int {
    if rounding == Down then 2 * (b - 1) else b
  }

  function Overshoot(rounding: Rounding, b: nat): int {
    if rounding == Down then 0 else b
  }

  /** effective * quantity / available, capped at the quoted quantity. */
  function RawShare(quantity: nat, effective: nat, available: nat, rounding: Rounding): nat
    requires available > 0
  {
    Min(Divide(rounding, effective * quantity, available), quantity)
  }

  /** The shares of the first n quotes. */
  ghost function FirstShares(quotes: seq<RankedQuote>, effective: nat, rounding: Rounding, n: nat): (s: seq<int>)
    requires n <= |quotes| && Available(quotes) > 0
    ensures |s| == n && forall i :: 0 <= i < n ==> s[i] >= 0
  {
    if n == 0 then []
    else FirstShares(quotes, effective, rounding, n - 1)
         + [RawShare(quotes[n - 1].quote.quantity, effective, Available(quotes), rounding)]
  }

  /** Every quote gets its share; the last one takes the remainder. */
  ghost function ProRataShares(quotes: seq<RankedQuote>, effective: nat, rounding: Rounding): (s: seq<int>)
    requires quotes != [] && Available(quotes) > 0
    ensures |s| == |quotes|
  {
    var first := FirstShares(quotes, effective, rounding, |quotes| - 1);
    first + [effective - Sum(first)]
  }

  lemma {:induction false} ShareAt(quotes: seq<RankedQuote>, effective: nat, rounding: Rounding, n: nat, i: nat)
    requires i < n <= |quotes| && Available(quotes) > 0
    ensures FirstShares(quotes, effective, rounding, n)[i] ==
            RawShare(quotes[i].quote.quantity, effective, Available(quotes), rounding)
  {
    if i < n - 1 {
      ShareAt(quotes, effective, rounding, n - 1, i);
    }
  }

  ghost function ProRataOutcome(quotes: seq<RankedQuote>, target: Quantity, mode: FillMode, rounding: Rounding): (r: Result<seq<Allocation>, DomainError>)
  {
    if target == 0 || quotes == [] then Err(InvalidQuantity)
    else
      SumNonNegative(Quantities(quotes));
      var effective :- EnforceMode(mode, target, Available(quotes));
      if Available(quotes) == 0 then Err(InvalidQuantity)
      else
        SharesOutcome(quotes, ProRataShares(quotes, effective, rounding))
  }

  /** Turning shares into allocations, with the errors in the order they occur. */
  ghost function SharesOutcome(quotes: seq<RankedQuote>, shares: seq<int>): (r: Result<seq<Allocation>, DomainError>)
    requires |shares| == |quotes| > 0
  {
    if Unpriced(quotes, shares, |quotes| - 1) then Err(InvalidPrice)
    else if shares[|quotes| - 1] < 0 then Err(Underflow)
    else if Unpriced(quotes, shares, |quotes|) then Err(InvalidPrice)
    else Ok(Legs(quotes, shares, |quotes|))
  }

  lemma {:induction false} SharesSum(quotes: seq<RankedQuote>, effective: nat, rounding: Rounding)
    requires quotes != [] && Available(quotes) > 0
    ensures var s := ProRataShares(quotes, effective, rounding);
            && Sum(s) == effective
            && s[|s| - 1] == effective - Sum(s[..|s| - 1])
            && s[..|s| - 1] == FirstShares(quotes, effective, rounding, |quotes| - 1)
            && forall i :: 0 <= i < |s| - 1 ==> s[i] >= 0
  {
    var first := FirstShares(quotes, effective, rounding, |quotes| - 1);
    var s := ProRataShares(quotes, effective, rounding);
    assert s[..|s| - 1] == first;
    forall i | 0 <= i < |s| - 1 ensures s[i] >= 0 { assert s[i] == first[i]; }
  }

  method ProRataFill(quotes: seq<RankedQuote>, target: Quantity, mode: FillMode, rounding: Rounding) returns (r: Result<seq<Allocation>, DomainError>)
    ensures r == ProRataOutcome(quotes, target, mode, rounding)
  {
    if target == 0 || quotes == [] {
      return Err(InvalidQuantity);
    }
    var available := TotalQuotedQuantity(quotes);
    var enforced := EnforceMode(mode, target, available);
    if enforced.Err? {
      return Err(enforced.error);
    }
    if available == 0 {
      return Err(InvalidQuantity);
    }
    r := FillProportionally(quotes, enforced.value, available, rounding);
  }

  /** The loop of the pro-rata fill and its final check. */
  method FillProportionally(quotes: seq<RankedQuote>, effective: Quantity, available: Quantity, rounding: Rounding)
    returns (r: Result<seq<Allocation>, DomainError>)
    requires quotes != [] && 0 < available == Available(quotes)
    ensures r == SharesOutcome(quotes, ProRataShares(quotes, effective, rounding))
  {
    hide RawShare, Divide, FirstShares, ProRataShares;
    ghost var shares := ProRataShares(quotes, effective, rounding);
    SharesSum(quotes, effective, rounding);
    assert shares[..|quotes|] == shares;
    var soFar: nat := 0;
    var legs := [];
    for i := 0 to |quotes|
      invariant soFar == Sum(shares[..i])
      invariant forall k :: 0 <= k < i ==> shares[k] >= 0
      invariant legs == Legs(quotes, shares, i) && !Unpriced(quotes, shares, i)
    {
      SumStep(shares, i);
      var amount: nat;
      if i == |quotes| - 1 {
        if effective < soFar {
          return Err(Underflow);
        }
        amount := effective - soFar;
      } else {
        amount := RawShare(quotes[i].quote.quantity, effective, available, rounding);
        ShareAt(quotes, effective, rounding, |quotes| - 1, i);
      }
      assert amount == shares[i] by {
        assert i < |quotes| - 1 ==> shares[i] == shares[..|quotes| - 1][i];
      }
      if amount > 0 {
        soFar := soFar + amount;
      }
      var pushed := PushAllocation(quotes, shares, i, amount, legs);
      if pushed.Err? {
        return Err(pushed.error);
      }
      legs := pushed.value;
    }
    LegsCarryFills(quotes, shares, |quotes|);
    var check := ValidateAllocationSum(legs, effective);
    r := match check case Err(e) => Err(e) case Ok(_) => Ok(legs);
  }

  /** A successful pro-rata fill adds up exactly, however division rounds. */
  lemma {:induction false} ProRataConserves(quotes: seq<RankedQuote>, target: Quantity, mode: FillMode, rounding: Rounding)
    requires ProRataOutcome(quotes, target, mode, rounding).Ok?
    ensures Filled(ProRataOutcome(quotes, target, mode, rounding).value) ==
            if target <= Available(quotes) then target else Available(quotes)
  {
    hide *;
    var shares := ProRataShape(quotes, target, mode, rounding);
    LegsCarryFills(quotes, shares, |quotes|);
    assert shares[..|quotes|] == shares;
  }

  lemma {:induction false} ProRataShape(quotes: seq<RankedQuote>, target: Quantity, mode: FillMode, rounding: Rounding) returns (shares: seq<int>)
    requires ProRataOutcome(quotes, target, mode, rounding).Ok?
    ensures quotes != [] && 0 < Available(quotes)
    ensures var e := if target <= Available(quotes) then target else Available(quotes);
            shares == ProRataShares(quotes, e, rounding) && Sum(shares) == e
    ensures forall i :: 0 <= i < |shares| ==> shares[i] >= 0
    ensures ProRataOutcome(quotes, target, mode, rounding).value == Legs(quotes, shares, |quotes|)
  {
    hide RawShare, Divide, FirstShares, Legs;
    SumNonNegative(Quantities(quotes));
    shares := ProRataShares(quotes, Min(target, Available(quotes)), rounding);
    SharesSum(quotes, Min(target, Available(quotes)), rounding);
  }

  /** Its allocations: each names the quote it comes from and carries that
      quote's share. */
  lemma {:induction false} ProRataAllocations(quotes: seq<RankedQuote>, target: Quantity, mode: FillMode, rounding: Rounding)
    returns (shares: seq<int>, picked: seq<nat>)
    requires ProRataOutcome(quotes, target, mode, rounding).Ok?
    ensures |shares| == |quotes| > 0 && 0 < Available(quotes)
    ensures MadeFrom(quotes, shares, |quotes|, ProRataOutcome(quotes, target, mode, rounding).value, picked)
    ensures var e := Min(target, Available(quotes));
            && Sum(shares) == e
            && (forall i :: 0 <= i < |shares| ==> shares[i] >= 0)
            && forall i :: 0 <= i < |shares| - 1 ==>
                 var exact := 2 * (e * quotes[i].quote.quantity);
                 exact - Undershoot(rounding, Available(quotes)) <= 2 * (shares[i] * Available(quotes))
                 <= exact + Overshoot(rounding, Available(quotes))
  {
    hide RawShare, Divide, FirstShares, Legs, Undershoot, Overshoot, MadeFrom, ProRataOutcome, ProRataShares, Sum;
    shares := ProRataShape(quotes, target, mode, rounding);
    picked := LegsNameQuotes(quotes, shares, |quotes|);
    ProRataRoundingBound(quotes, Min(target, Available(quotes)), rounding);
  }

  /** It refuses for the same reasons before any share is made. */
  lemma {:induction false} ProRataRefusals(quotes: seq<RankedQuote>, target: Quantity, mode: FillMode, rounding: Rounding)
    ensures var r, a := ProRataOutcome(quotes, target, mode, rounding), Available(quotes);
            && a >= 0
            && (r == Err(InvalidQuantity) <==>
                  target == 0 || quotes == [] || (a == 0 && mode == MinQuantity(0)))
            && (target > 0 && quotes != [] ==>
                  && (r == Err(InsufficientLiquidity(a, target)) <==>
                        ((mode.AllOrNothing? || mode.FillOrKill?) && a < target) || (mode.BestEffort? && a == 0))
                  && (mode.MinQuantity? ==>
                        (r == Err(MinQuantityNotMet(Min(target, a), mode.minimum)) <==> target < mode.minimum || a < mode.minimum)))
  {
    hide ProRataShares, Legs;
    SumNonNegative(Quantities(quotes));
  }

  lemma {:induction false} QuotientBound(a: nat, b: nat)
    requires b > 0
    ensures (a / b) * b <= a < (a / b) * b + b
  {
  }

  lemma {:induction false} ProductMonotone(x: int, y: int, m: nat)
    requires x <= y
    ensures x * m <= y * m
  {
  }

  /** No share before the last one is cut by the cap at the quoted quantity. */
  lemma {:induction false} QuotientCapped(rounding: Rounding, e: nat, q: nat, t: nat)
    requires 0 < t && e <= t
    ensures Divide(rounding, e * q, t) <= q
    ensures RawShare(q, e, t, rounding) == Divide(rounding, e * q, t)
  {
    ProductMonotone(e, t, q);
    DivideCapped(rounding, e * q, q, t);
  }

  lemma {:induction false} DivideCapped(rounding: Rounding, a: nat, q: nat, t: nat)
    requires 0 < t && a <= t * q
    ensures Divide(rounding, a, t) <= q
  {
    var d := a / t;
    assert a == d * t + a % t;
    QuotientAtMost(a, q, t);
    if d == q {
      assert a % t == 0;
    }
  }

  lemma {:induction false} QuotientAtMost(a: nat, q: nat, t: nat)
    requires 0 < t && a < q * t + t
    ensures a / t <= q
  {
    QuotientBound(a, t);
    assert (q + 1) * t == q * t + t;
    if a / t > q {
      ProductMonotone(q + 1, a / t, t);
    }
  }

  /** A quotient lies near the exact one, on the side that its rounding allows. */
  lemma {:induction false} DivideNear(rounding: Rounding, a: nat, b: nat)
    requires b > 0
    ensures var r := Divide(rounding, a, b);
            2 * a - Undershoot(rounding, b) <= 2 * (r * b) <= 2 * a + Overshoot(rounding, b)
  {
    var d := a / b;
    assert a == d * b + a % b;
    assert (d + 1) * b == d * b + b;
  }

  /** n shares that sum to `sp` are off the exact total, `e` parts in `t` of
      `qp`, by at most n times what one quotient may be off. */
  ghost predicate Drifts(rounding: Rounding, e: nat, t: nat, n: nat, sp: int, qp: int) {
    2 * (e * qp) - n * Undershoot(rounding, t) <= 2 * (sp * t) <= 2 * (e * qp) + n * Overshoot(rounding, t)
  }

  lemma {:induction false} SharesDrift(quotes: seq<RankedQuote>, effective: nat, rounding: Rounding, n: nat)
    requires n <= |quotes| && 0 < Available(quotes) && effective <= Available(quotes)
    ensures Drifts(rounding, effective, Available(quotes), n,
                   Sum(FirstShares(quotes, effective, rounding, n)), Sum(Quantities(quotes)[..n]))
  {
    hide RawShare, Divide, Drifts;
    if n > 0 {
      SharesDrift(quotes, effective, rounding, n - 1);
      var s, q := FirstShares(quotes, effective, rounding, n), Quantities(quotes);
      SumStep(q, n - 1);
      assert s[..n - 1] == FirstShares(quotes, effective, rounding, n - 1);
      DriftStep(rounding, effective, Available(quotes), n, Sum(s[..n - 1]), Sum(q[..n - 1]), q[n - 1]);
    } else {
      assert FirstShares(quotes, effective, rounding, 0) == [] && Quantities(quotes)[..0] == [];
      NoDrift(rounding, effective, Available(quotes));
    }
  }

  lemma {:induction false} NoDrift(rounding: Rounding, e: nat, t: nat)
    ensures Drifts(rounding, e, t, 0, 0, 0)
  {
  }

  /** A share lies as near to its exact value as the rounding allows. */
  lemma {:induction false} ShareNear(rounding: Rounding, q: nat, e: nat, t: nat)
    requires 0 < t && e <= t
    ensures var s := RawShare(q, e, t, rounding);
            2 * (e * q) - Undershoot(rounding, t) <= 2 * (s * t) <= 2 * (e * q) + Overshoot(rounding, t)
  {
    QuotientCapped(rounding, e, q, t);
    DivideNear(rounding, e * q, t);
  }

  lemma {:induction false} DriftStep(rounding: Rounding, e: nat, t: nat, n: nat, sp: int, qp: int, q: nat)
    requires n > 0 && 0 < t && e <= t && Drifts(rounding, e, t, n - 1, sp, qp)
    ensures Drifts(rounding, e, t, n, sp + RawShare(q, e, t, rounding), qp + q)
  {
    ShareNear(rounding, q, e, t);
    DriftSum(e, t, n, sp, qp, RawShare(q, e, t, rounding), q, Undershoot(rounding, t), Overshoot(rounding, t));
  }

  lemma {:induction false} DriftSum(e: nat, t: nat, n: nat, sp: int, qp: int, sn: int, qn: int, under: int, over: int)
    requires n > 0
    requires 2 * (e * qp) - (n - 1) * under <= 2 * (sp * t) <= 2 * (e * qp) + (n - 1) * over
    requires 2 * (e * qn) - under <= 2 * (sn * t) <= 2 * (e * qn) + over
    ensures 2 * (e * (qp + qn)) - n * under <= 2 * ((sp + sn) * t) <= 2 * (e * (qp + qn)) + n * over
  {
    assert (sp + sn) * t == sp * t + sn * t;
    assert e * (qp + qn) == e * qp + e * qn;
    assert n * under == (n - 1) * under + under && n * over == (n - 1) * over + over;
  }

  /** However division rounds, every share but the last is off its exact value
      by no more than one quotient may be, and the last by the opposite of what
      all the others may be off together. Truncating, each share but the last
      is less than one unit below its exact value, and the last never below. */
  lemma {:induction false} ProRataRoundingBound(quotes: seq<RankedQuote>, effective: nat, rounding: Rounding)
    requires quotes != [] && 0 < Available(quotes) && effective <= Available(quotes)
    ensures var s, q, t, n := ProRataShares(quotes, effective, rounding), Quantities(quotes), Available(quotes), |quotes|;
            && (forall i :: 0 <= i < n - 1 ==>
                  2 * (effective * q[i]) - Undershoot(rounding, t) <= 2 * (s[i] * t) <= 2 * (effective * q[i]) + Overshoot(rounding, t))
            && 2 * (effective * q[n - 1]) - (n - 1) * Overshoot(rounding, t) <= 2 * (s[n - 1] * t)
            && 2 * (s[n - 1] * t) <= 2 * (effective * q[n - 1]) + (n - 1) * Undershoot(rounding, t)
  {
    hide Drifts, RawShare, Undershoot, Overshoot;
    var s, q, t, n := ProRataShares(quotes, effective, rounding), Quantities(quotes), Available(quotes), |quotes|;
    SharesSum(quotes, effective, rounding);
    forall i | 0 <= i < n - 1
      ensures 2 * (effective * q[i]) - Undershoot(rounding, t) <= 2 * (s[i] * t) <= 2 * (effective * q[i]) + Overshoot(rounding, t)
    {
      assert s[i] == s[..n - 1][i];
      ShareAt(quotes, effective, rounding, n - 1, i);
      ShareNear(rounding, q[i], effective, t);
    }
    SharesDrift(quotes, effective, rounding, n - 1);
    SumStep(q, n - 1);
    assert q[..n] == q;
    LastShareBound(rounding, effective, t, n - 1, Sum(s[..n - 1]), Sum(q[..n - 1]), q[n - 1]);
  }

  lemma {:induction false} LastShareBound(rounding: Rounding, e: nat, t: nat, m: nat, sp: int, qp: int, q: nat)
    requires 0 < t == qp + q && Drifts(rounding, e, t, m, sp, qp)
    ensures 2 * (e * q) - m * Overshoot(rounding, t) <= 2 * ((e - sp) * t) <= 2 * (e * q) + m * Undershoot(rounding, t)
  {
    Remainder(e, t, sp, qp, q, m * Undershoot(rounding, t), m * Overshoot(rounding, t));
  }

  lemma {:induction false} Remainder(e: nat, t: nat, sp: int, qp: int, q: nat, below: int, above: int)
    requires t == qp + q && 2 * (e * qp) - below <= 2 * (sp * t) <= 2 * (e * qp) + above
    ensures 2 * (e * q) - above <= 2 * ((e - sp) * t) <= 2 * (e * q) + below
  {
    assert (e - sp) * t == e * t - sp * t;
    assert e * t == e * qp + e * q;
  }

  /** The remainder of the last quote does not underflow when division
      truncates, nor, rounding to nearest, when the last quote's exact share
      outweighs half a unit for every quote beyond three. */
  lemma {:induction false} RemainderCovers(quotes: seq<RankedQuote>, effective: nat, rounding: Rounding)
    requires quotes != [] && 0 < Available(quotes) && effective <= Available(quotes)
    requires rounding == Down || (|quotes| - 3) * Available(quotes) < 2 * (effective * quotes[|quotes| - 1].quote.quantity)
    ensures Sum(FirstShares(quotes, effective, rounding, |quotes| - 1)) <= effective
  {
    hide *;
    RemainderBound(quotes, effective, rounding);
    NotNegative(effective - Sum(FirstShares(quotes, effective, rounding, |quotes| - 1)), Available(quotes),
                effective * quotes[|quotes| - 1].quote.quantity, |quotes|, rounding);
  }

  lemma {:induction false} RemainderBound(quotes: seq<RankedQuote>, effective: nat, rounding: Rounding)
    requires quotes != [] && 0 < Available(quotes) && effective <= Available(quotes)
    ensures var last := effective - Sum(FirstShares(quotes, effective, rounding, |quotes| - 1));
            2 * (effective * quotes[|quotes| - 1].quote.quantity) - (|quotes| - 1) * Overshoot(rounding, Available(quotes))
            <= 2 * (last * Available(quotes))
  {
    ProRataRoundingBound(quotes, effective, rounding);
    SharesSum(quotes, effective, rounding);
    assert Quantities(quotes)[|quotes| - 1] == quotes[|quotes| - 1].quote.quantity;
    hide ProRataShares, FirstShares, Sum, Overshoot, Undershoot, Available;
  }

  lemma {:induction false} NotNegative(last: int, t: nat, exact: nat, n: nat, rounding: Rounding)
    requires t > 0 && n > 0 && 2 * exact - (n - 1) * Overshoot(rounding, t) <= 2 * (last * t)
    requires rounding == Down || (n - 3) * t < 2 * exact
    ensures last >= 0
  {
    assert (n - 1) * t == (n - 3) * t + 2 * t;
    if last < 0 {
      ProductMonotone(last, -1, t);
    }
  }

  /** On a book of priced quotes the fill succeeds exactly when the mode allows
      it, something is quoted, and the rounded shares of all quotes but the last
      do not use up more than there is to fill. Truncated shares never do. */
  lemma {:induction false} ProRataSucceeds(quotes: seq<RankedQuote>, target: Quantity, mode: FillMode, rounding: Rounding)
    requires AllPriced(quotes)
    ensures ProRataOutcome(quotes, target, mode, rounding).Ok? <==>
            && target > 0 && quotes != [] && Available(quotes) > 0
            && EnforceMode(mode, target, Available(quotes)).Ok?
            && Sum(FirstShares(quotes, Min(target, Available(quotes)), rounding, |quotes| - 1)) <= Min(target, Available(quotes))
    ensures ProRataOutcome(quotes, target, mode, Down).Ok? <==>
            && target > 0
            && Available(quotes) > 0
            && EnforceMode(mode, target, Available(quotes)).Ok?
  {
    SumNonNegative(Quantities(quotes));
    OutcomeOfRemainder(quotes, target, mode, rounding);
    OutcomeOfRemainder(quotes, target, mode, Down);
    if target > 0 && quotes != [] && Available(quotes) > 0 && EnforceMode(mode, target, Available(quotes)).Ok? {
      RemainderCovers(quotes, Min(target, Available(quotes)), Down);
    }
  }

  lemma {:induction false} OutcomeOfRemainder(quotes: seq<RankedQuote>, target: Quantity, mode: FillMode, rounding: Rounding)
    requires AllPriced(quotes) && Available(quotes) >= 0
    ensures ProRataOutcome(quotes, target, mode, rounding).Ok? <==>
            && target > 0 && quotes != [] && Available(quotes) > 0
            && EnforceMode(mode, target, Available(quotes)).Ok?
            && Sum(FirstShares(quotes, Min(target, Available(quotes)), rounding, |quotes| - 1)) <= Min(target, Available(quotes))
  {
    hide Legs, FirstShares, RawShare, Divide, Sum, Available;
    if target > 0 && quotes != [] && Available(quotes) > 0 && EnforceMode(mode, target, Available(quotes)).Ok? {
      SharesSum(quotes, Min(target, Available(quotes)), rounding);
    }
  }
}
