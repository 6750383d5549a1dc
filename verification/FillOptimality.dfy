/** What the two fill strategies achieve: best-price ranking followed by the
    best-price fill is optimal, and pro rata overfills only its last quote. */
module FillOptimality {
  import opened Domain
  import opened Permutations
  import opened Ranking
  import opened Fill

  // ---------------------------------------------------------------------
  // Greedy optimality
  // ---------------------------------------------------------------------

  ghost function Products(p: seq<int>, x: seq<int>): (r: seq<int>)
    requires |p| == |x|
  {
    seq(|p|, i requires 0 <= i < |p| => p[i] * x[i])
  }

  /** Quantities `x` taken from quotes of prices `p` are no cheaper than `f` at
      any quote once each price is measured against `marginal`. */
  ghost predicate NoCheaper(p: seq<int>, f: seq<int>, x: seq<int>, marginal: int)
    requires |p| == |f| == |x|
  {
    forall i :: 0 <= i < |p| ==> (p[i] - marginal) * (x[i] - f[i]) >= 0
  }

  lemma {:induction false} DualBound(p: seq<int>, f: seq<int>, x: seq<int>, marginal: int)
    requires |p| == |f| == |x| && NoCheaper(p, f, x, marginal)
    ensures Sum(Products(p, x)) - Sum(Products(p, f)) >= marginal * (Sum(x) - Sum(f))
    decreases |p|
  {
    if p != [] {
      var n := |p| - 1;
      DualBound(p[..n], f[..n], x[..n], marginal);
      assert Products(p, x)[..n] == Products(p[..n], x[..n]);
      assert Products(p, f)[..n] == Products(p[..n], f[..n]);
      DualStep(p[n], f[n], x[n], marginal, Sum(x[..n]) - Sum(f[..n]));
    }
  }

  lemma {:induction false} DualStep(p: int, f: int, x: int, marginal: int, d: int)
    requires (p - marginal) * (x - f) >= 0
    ensures p * x - p * f + marginal * d >= marginal * (d + x - f)
  {
    assert (p - marginal) * (x - f) == p * x - p * f - marginal * x + marginal * f;
  }

  /** On prices that never decrease, some quote's price separates the quotes
      the greedy fill exhausts from those it does not touch. */
  lemma {:induction false} GreedyHasMarginalPrice(q: seq<nat>, amount: nat, p: seq<int>) returns (marginal: int)
    requires |p| == |q| && forall a, b :: 0 <= a < b < |p| ==> p[a] <= p[b]
    ensures forall i :: 0 <= i < |q| ==> p[i] < marginal ==> GreedyFills(q, amount)[i] == q[i]
    ensures forall i :: 0 <= i < |q| ==> p[i] > marginal ==> GreedyFills(q, amount)[i] == 0
  {
    hide GreedyFills;
    var f := GreedyFills(q, amount);
    if m :| 0 <= m < |q| && f[m] < q[m] && forall k :: 0 <= k < m ==> f[k] == q[k] {
      marginal := p[m];
      NothingBehind(q, amount, m);
    } else {
      AllExhausted(q, f, |q|);
      marginal := if p == [] then 0 else p[|p| - 1];
    }
  }

  /** Behind a quote that is not exhausted nothing is filled. */
  lemma {:induction false} NothingBehind(q: seq<nat>, amount: nat, m: nat)
    requires m < |q| && GreedyFills(q, amount)[m] < q[m]
    ensures forall i :: m < i < |q| ==> GreedyFills(q, amount)[i] == 0
  {
    LeftStep(q, amount, m);
    forall i | m < i < |q| ensures GreedyFills(q, amount)[i] == 0 {
      NothingLeftLater(q, amount, m + 1, i);
    }
  }

  lemma {:induction false} AllExhausted(q: seq<nat>, f: seq<int>, n: nat)
    requires n <= |q| == |f| && forall i :: 0 <= i < |q| ==> f[i] <= q[i]
    requires !exists m :: 0 <= m < |q| && f[m] < q[m] && forall k :: 0 <= k < m ==> f[k] == q[k]
    ensures forall i :: 0 <= i < n ==> f[i] == q[i]
  {
    if n > 0 {
      AllExhausted(q, f, n - 1);
    }
  }

  lemma {:induction false} GreedyNoCheaper(q: seq<nat>, amount: nat, p: seq<int>, x: seq<int>, marginal: int)
    requires |p| == |q| == |x|
    requires forall i :: 0 <= i < |q| ==> 0 <= x[i] <= q[i]
    requires forall i :: 0 <= i < |q| ==> p[i] < marginal ==> GreedyFills(q, amount)[i] == q[i]
    requires forall i :: 0 <= i < |q| ==> p[i] > marginal ==> GreedyFills(q, amount)[i] == 0
    ensures NoCheaper(p, GreedyFills(q, amount), x, marginal)
  {
    hide GreedyFills;
    var f := GreedyFills(q, amount);
    forall i | 0 <= i < |p| ensures (p[i] - marginal) * (x[i] - f[i]) >= 0 {
      SameSign(p[i] - marginal, x[i] - f[i]);
    }
  }

  lemma {:induction false} SameSign(a: int, b: int)
    requires (a < 0 ==> b <= 0) && (a > 0 ==> b >= 0)
    ensures a * b >= 0
  {
  }

  /** On ascending prices the greedy fill costs least among all fills of the
      same total. */
  lemma {:induction false} GreedyMinimisesCost(q: seq<nat>, amount: nat, p: seq<int>, x: seq<int>)
    requires |p| == |q| == |x| && forall a, b :: 0 <= a < b < |p| ==> p[a] <= p[b]
    requires forall i :: 0 <= i < |q| ==> 0 <= x[i] <= q[i]
    requires Sum(x) == Sum(GreedyFills(q, amount))
    ensures Sum(Products(p, GreedyFills(q, amount))) <= Sum(Products(p, x))
  {
    var marginal := GreedyHasMarginalPrice(q, amount, p);
    GreedyNoCheaper(q, amount, p, x, marginal);
    DualBound(p, GreedyFills(q, amount), x, marginal);
  }

  // ---------------------------------------------------------------------
  // From ranked order back to the order of the book
  // ---------------------------------------------------------------------

  ghost function Rearranged(xs: seq<int>, order: seq<nat>): (r: seq<int>)
    requires forall k :: 0 <= k < |order| ==> order[k] < |xs|
  {
    seq(|order|, k requires 0 <= k < |order| => xs[order[k]])
  }

  lemma {:induction false} RearrangedSum(xs: seq<int>, order: seq<nat>)
    requires forall k :: 0 <= k < |order| ==> order[k] < |xs|
    ensures Sum(Rearranged(xs, order)) == SumAt(xs, order)
    decreases |order|
  {
    if order != [] {
      var n := |order| - 1;
      RearrangedSum(xs, order[..n]);
      assert Rearranged(xs, order)[..n] == Rearranged(xs, order[..n]);
    }
  }

  /** Paying is a cost for a buyer and a gain for a seller. */
  function Sign(side: OrderSide): int {
    if side == Buy then 1 else -1
  }

  ghost function SignedPrices(quotes: seq<Quote>, side: OrderSide): (p: seq<int>) {
    seq(|quotes|, i requires 0 <= i < |quotes| => Sign(side) * quotes[i].price)
  }

  /** An arbitrary way of taking quantities from the quotes of the book. */
  ghost predicate Feasible(quotes: seq<Quote>, taken: seq<nat>) {
    |taken| == |quotes| && forall i :: 0 <= i < |quotes| ==> taken[i] <= quotes[i].quantity
  }

  ghost function CostOf(quotes: seq<Quote>, taken: seq<nat>): int
    requires |taken| == |quotes|
  {
    Sum(seq(|quotes|, i requires 0 <= i < |quotes| => Value(quotes[i].price, taken[i])))
  }

  lemma {:induction false} SumScaled(xs: seq<int>, ys: seq<int>, c: int)
    requires |xs| == |ys| && forall i :: 0 <= i < |xs| ==> ys[i] == c * xs[i]
    ensures Sum(ys) == c * Sum(xs)
  {
    if xs != [] {
      SumScaled(xs[..|xs| - 1], ys[..|xs| - 1], c);
    }
  }

  lemma {:induction false} SignMoves(sign: int, price: Price, amount: int)
    ensures (sign * price) * amount == sign * Value(price, amount)
  {
  }

  /** Ranked best price first, the signed prices never decrease. */
  lemma {:induction false} RankedPricesAscend(quotes: seq<Quote>, side: OrderSide)
    requires quotes != []
    ensures var scores := Scores(BestPrice, quotes, side);
            var p := Rearranged(SignedPrices(quotes, side), Order(scores));
            && IsRanking(quotes, scores, Rank(BestPrice, quotes, side), Order(scores))
            && |p| == |quotes|
            && forall a, b :: 0 <= a < b < |p| ==> p[a] <= p[b]
  {
    var scores := Scores(BestPrice, quotes, side);
    var order := Order(scores);
    RankIsStableSort(quotes, scores);
    OrderIsStablySorted(scores);
    var p := Rearranged(SignedPrices(quotes, side), order);
    forall a, b | 0 <= a < b < |p| ensures p[a] <= p[b] {
      assert Ahead(scores, order[a], order[b]);
      assert scores[order[a]] == -(p[a] as real) && scores[order[b]] == -(p[b] as real);
    }
  }

  /** The signed cost of any feasible choice, summed in ranked order. */
  lemma {:induction false} CostInRankedOrder(quotes: seq<Quote>, side: OrderSide, taken: seq<nat>, order: seq<nat>)
    requires |taken| == |quotes| && IsPermutation(order, |quotes|)
    ensures Sum(Rearranged(taken, order)) == Sum(taken)
    ensures Sum(Products(Rearranged(SignedPrices(quotes, side), order), Rearranged(taken, order))) == Sign(side) * CostOf(quotes, taken)
  {
    var costs := seq(|quotes|, i requires 0 <= i < |quotes| => Value(quotes[i].price, taken[i]));
    RearrangedSum(taken, order);
    SumOverPermutation(taken, order);
    RearrangedSum(costs, order);
    SumOverPermutation(costs, order);
    var ys := Products(Rearranged(SignedPrices(quotes, side), order), Rearranged(taken, order));
    forall k | 0 <= k < |order| ensures ys[k] == Sign(side) * Rearranged(costs, order)[k] {
      SignMoves(Sign(side), quotes[order[k]].price, taken[order[k]]);
    }
    SumScaled(Rearranged(costs, order), ys, Sign(side));
  }

  /** The signed cost of the allocations made from fills of the ranking. */
  lemma {:induction false} LegsInRankedOrder(quotes: seq<Quote>, side: OrderSide, fills: seq<int>)
    requires |fills| == |quotes| > 0 && forall i :: 0 <= i < |fills| ==> fills[i] >= 0
    ensures |Rank(BestPrice, quotes, side)| == |quotes|
    ensures var p := Rearranged(SignedPrices(quotes, side), Order(Scores(BestPrice, quotes, side)));
            && |p| == |fills|
            && Sum(Products(p, fills)) == Sign(side) * Cost(Legs(Rank(BestPrice, quotes, side), fills, |quotes|))
  {
    var ranked := Rank(BestPrice, quotes, side);
    var order := Order(Scores(BestPrice, quotes, side));
    var p := Rearranged(SignedPrices(quotes, side), order);
    RankedPricesAscend(quotes, side);
    LegsCarryFills(ranked, fills, |ranked|);
    assert Costs(ranked, fills)[..|ranked|] == Costs(ranked, fills);
    forall i | 0 <= i < |fills| ensures Products(p, fills)[i] == Sign(side) * Costs(ranked, fills)[i] {
      assert ranked[i].quote == quotes[order[i]];
      SignMoves(Sign(side), ranked[i].quote.price, fills[i]);
    }
    SumScaled(Costs(ranked, fills), Products(p, fills), Sign(side));
  }

  lemma {:induction false} GreedyBeatsAny(quotes: seq<Quote>, side: OrderSide, effective: nat, taken: seq<nat>)
    requires quotes != [] && Feasible(quotes, taken) && Sum(taken) == effective
    requires effective <= Available(Rank(BestPrice, quotes, side))
    ensures var ranked := Rank(BestPrice, quotes, side);
            Sign(side) * Cost(Legs(ranked, GreedyFills(Quantities(ranked), effective), |ranked|)) <=
            Sign(side) * CostOf(quotes, taken)
  {
    hide Legs, Cost, CostOf, Value, Products;
    var ranked := Rank(BestPrice, quotes, side);
    var order := Order(Scores(BestPrice, quotes, side));
    var q := Quantities(ranked);
    var x := Rearranged(taken, order);
    RankedPricesAscend(quotes, side);
    CostInRankedOrder(quotes, side, taken, order);
    GreedyFillsTotal(q, effective);
    forall i | 0 <= i < |q| ensures 0 <= x[i] <= q[i] {
      assert ranked[i].quote == quotes[order[i]];
    }
    GreedyMinimisesCost(q, effective, Rearranged(SignedPrices(quotes, side), order), x);
    LegsInRankedOrder(quotes, side, GreedyFills(q, effective));
  }

  lemma {:induction false} RankOfNothing(side: OrderSide)
    ensures Rank(BestPrice, [], side) == []
  {
  }

  /** Ranking by best price and filling greedily is optimal: no other way of
      taking the same total from the book is cheaper for a buyer, and none
      earns more for a seller. */
  lemma {:induction false} BestPriceFillIsOptimal(quotes: seq<Quote>, side: OrderSide, target: Quantity, mode: FillMode, taken: seq<nat>)
    requires BestPriceOutcome(Rank(BestPrice, quotes, side), target, mode).Ok?
    requires Feasible(quotes, taken)
    requires Sum(taken) == Filled(BestPriceOutcome(Rank(BestPrice, quotes, side), target, mode).value)
    ensures var cost := Cost(BestPriceOutcome(Rank(BestPrice, quotes, side), target, mode).value);
            if side == Buy then cost <= CostOf(quotes, taken) else cost >= CostOf(quotes, taken)
  {
    hide Rank, BestPriceOutcome, Legs, Cost;
    assert quotes == [] ==> Rank(BestPrice, quotes, side) == [] by { RankOfNothing(side); }
    BestPriceFillTotal(Rank(BestPrice, quotes, side), target, mode);
    GreedyBeatsAny(quotes, side, Filled(BestPriceOutcome(Rank(BestPrice, quotes, side), target, mode).value), taken);
  }

  // ---------------------------------------------------------------------
  // Pro rata against the quoted quantities
  // ---------------------------------------------------------------------

  /** What the share of a quote of quantity q leaves unfilled of it. */
  function Unfilled(rounding: Rounding, q: nat, effective: nat, total: nat): int
    requires effective <= total && total > 0
  {
    q - Divide(rounding, effective * q, total)
  }

  ghost function RoundedShortfall(rounding: Rounding, q: seq<nat>, effective: nat, total: nat, n: nat): int
    requires n <= |q| && effective <= total && total > 0
  {
    if n == 0 then 0
    else RoundedShortfall(rounding, q, effective, total, n - 1) + Unfilled(rounding, q[n - 1], effective, total)
  }

  /** It is the exact unfilled part, rounded up when shares are truncated, and
      never more than that otherwise. */
  lemma {:induction false} UnfilledRoundsUp(rounding: Rounding, q: nat, e: nat, t: nat)
    requires t > 0 && e <= t
    ensures Unfilled(Down, q, e, t) == ((t - e) * q + t - 1) / t
    ensures 0 <= Unfilled(rounding, q, e, t) <= Unfilled(Down, q, e, t)
  {
    QuotientCapped(rounding, e, q, t);
    CeilingComplement(q, e, t);
  }

  lemma {:induction false} CeilingComplement(q: nat, e: nat, t: nat)
    requires t > 0 && e <= t
    ensures ((t - e) * q + t - 1) / t == q - (e * q) / t
  {
    var d := (e * q) / t;
    QuotientBound(e * q, t);
    assert (t - e) * q == t * q - e * q;
    var c := ((t - e) * q + t - 1) / t;
    QuotientBound((t - e) * q + t - 1, t) by {
      ProductMonotone(e, t, q);
    }
    assert (q - d) * t == q * t - d * t;
    assert (c + 1) * t == c * t + t;
    assert (q - d + 1) * t == (q - d) * t + t;
    if c < q - d {
      ProductMonotone(c + 1, q - d, t);
    } else if c > q - d {
      ProductMonotone(q - d + 1, c, t);
    }
  }

  lemma {:induction false} ShortfallMatches(quotes: seq<RankedQuote>, effective: nat, rounding: Rounding, n: nat)
    requires n <= |quotes| && 0 < Available(quotes) && effective <= Available(quotes)
    ensures RoundedShortfall(rounding, Quantities(quotes), effective, Available(quotes), n) ==
            Sum(Quantities(quotes)[..n]) - Sum(FirstShares(quotes, effective, rounding, n))
  {
    hide RawShare, Divide;
    if n > 0 {
      var q, s := Quantities(quotes), FirstShares(quotes, effective, rounding, n);
      ShortfallMatches(quotes, effective, rounding, n - 1);
      SumStep(q, n - 1);
      assert s[..n - 1] == FirstShares(quotes, effective, rounding, n - 1);
      QuotientCapped(rounding, effective, q[n - 1], Available(quotes));
    }
  }

  /** No quote but the last is ever given more than it quoted; the last one is
      not either exactly when the quantity left unfilled covers what the shares
      of all the others leave unfilled. */
  lemma {:induction false} ProRataOverfill(quotes: seq<RankedQuote>, effective: nat, rounding: Rounding)
    requires quotes != [] && 0 < Available(quotes) && effective <= Available(quotes)
    ensures var s, q, n := ProRataShares(quotes, effective, rounding), Quantities(quotes), |quotes|;
            && (forall i :: 0 <= i < n - 1 ==> s[i] <= q[i])
            && (s[n - 1] <= q[n - 1] <==>
                RoundedShortfall(rounding, q, effective, Available(quotes), n - 1) <= Available(quotes) - effective)
  {
    hide Divide;
    var s, q, n := ProRataShares(quotes, effective, rounding), Quantities(quotes), |quotes|;
    SharesSum(quotes, effective, rounding);
    forall i | 0 <= i < n - 1 ensures s[i] <= q[i] {
      assert s[i] == s[..n - 1][i];
      ShareAt(quotes, effective, rounding, n - 1, i);
    }
    ShortfallMatches(quotes, effective, rounding, n - 1);
    SumStep(q, n - 1);
    assert q[..n] == q;
  }

  /** Two quotes at most, or a target that takes everything: nothing overfills. */
  lemma {:induction false} ProRataWithinQuotes(quotes: seq<RankedQuote>, effective: nat, rounding: Rounding, i: nat)
    requires i < |quotes| && 0 < Available(quotes) && effective <= Available(quotes)
    requires |quotes| <= 2 || effective == Available(quotes)
    ensures ProRataShares(quotes, effective, rounding)[i] <= Quantities(quotes)[i]
  {
    hide ProRataShares, Unfilled;
    var q, t, n := Quantities(quotes), Available(quotes), |quotes|;
    ProRataOverfill(quotes, effective, rounding);
    if effective == t {
      NoShortfall(rounding, q, t, n - 1);
    } else if n == 2 {
      SumNonNegative(q);
      SumStep(q, 0);
      assert q[..0] == [];
      PairShortfall(rounding, q, effective, t);
    } else {
      assert RoundedShortfall(rounding, q, effective, t, 0) == 0;
    }
  }

  lemma {:induction false} PairShortfall(rounding: Rounding, q: seq<nat>, e: nat, t: nat)
    requires |q| == 2 && 0 < t && e <= t && q[0] <= t
    ensures RoundedShortfall(rounding, q, e, t, 1) <= t - e
  {
    hide Unfilled;
    assert RoundedShortfall(rounding, q, e, t, 1) == RoundedShortfall(rounding, q, e, t, 0) + Unfilled(rounding, q[0], e, t);
    UnfilledRoundsUp(rounding, q[0], e, t);
    assert (t - e) * q[0] <= (t - e) * t by {
      ProductMonotone(q[0], t, t - e);
    }
    CeilingCapped((t - e) * q[0], t - e, t);
  }

  lemma {:induction false} CeilingCapped(a: nat, u: nat, t: nat)
    requires t > 0 && a <= u * t
    ensures (a + t - 1) / t <= u
  {
    QuotientBound(a + t - 1, t);
    assert (u + 1) * t == u * t + t;
    if (a + t - 1) / t > u {
      ProductMonotone(u + 1, (a + t - 1) / t, t);
    }
  }

  lemma {:induction false} NoShortfall(rounding: Rounding, q: seq<nat>, t: nat, n: nat)
    requires n <= |q| && t > 0
    ensures RoundedShortfall(rounding, q, t, t, n) == 0
  {
    hide Unfilled;
    if n > 0 {
      NoShortfall(rounding, q, t, n - 1);
      UnfilledRoundsUp(rounding, q[n - 1], t, t);
      assert (t - t) * q[n - 1] == 0;
    }
  }

  /** n quotes of the same size at price one; venue 10 + i made quote i. */
  function EvenBook(n: nat, size: nat): (r: seq<RankedQuote>) {
    seq(n, i requires 0 <= i < n => RankedQuote(Quote(i, 10 + i, 1, size), i + 1, 0.0))
  }

  lemma {:induction false} SumOfEqual(xs: seq<int>, x: int)
    requires forall i :: 0 <= i < |xs| ==> xs[i] == x
    ensures Sum(xs) == |xs| * x
  {
    if xs != [] {
      SumOfEqual(xs[..|xs| - 1], x);
      assert |xs| * x == (|xs| - 1) * x + x;
    }
  }

  lemma {:induction false} EvenBookTotal(n: nat, size: nat)
    ensures Available(EvenBook(n, size)) == n * size
  {
    SumOfEqual(Quantities(EvenBook(n, size)), size);
  }

  /** Every share but the last is the same in a book of equal quotes. */
  lemma {:induction false} EvenShares(n: nat, size: nat, k: nat, effective: nat, rounding: Rounding, share: nat)
    requires k <= n && Available(EvenBook(n, size)) == n * size > 0
    requires RawShare(size, effective, n * size, rounding) == share
    ensures var s := FirstShares(EvenBook(n, size), effective, rounding, k);
            Sum(s) == k * share && forall i :: 0 <= i < k ==> s[i] == share
  {
    hide RawShare, Available, Sum, FirstShares;
    var s := FirstShares(EvenBook(n, size), effective, rounding, k);
    forall i | 0 <= i < k ensures s[i] == share {
      ShareAt(EvenBook(n, size), effective, rounding, k, i);
    }
    SumOfEqual(s, share);
  }

  /** Five quotes of one unit and a target of two: whichever way division
      rounds, the first four get nothing and the last one two units, twice what
      it quoted. */
  lemma {:induction false} ProRataOverfillWitness(rounding: Rounding)
    ensures ProRataOutcome(EvenBook(5, 1), 2, BestEffort, rounding) == Ok([Allocation(14, 4, 2, 1)])
    ensures EvenBook(5, 1)[4].quote.quantity == 1
  {
    var book := EvenBook(5, 1);
    EvenBookTotal(5, 1);
    assert RawShare(1, 2, 5, rounding) == 0;
    EvenShares(5, 1, 4, 2, rounding, 0);
    var s := ProRataShares(book, 2, rounding);
    assert s == FirstShares(book, 2, rounding, 4) + [2];
    LegsOfNothing(book, s, 0, 4);
    assert Legs(book, s, 5) == Legs(book, s, 4) + [Allocation(14, 4, 2, 1)] == [Allocation(14, 4, 2, 1)];
    assert ProRataOutcome(book, 2, BestEffort, rounding) == SharesOutcome(book, s);
  }

  /** Five quotes of any one size and a target of three units: rounding to
      nearest uses up four units before the last quote, and the fill fails. */
  lemma {:induction false} NearestUnderflowWitness(rounding: Rounding, size: nat)
    requires rounding != Down && size > 0
    ensures ProRataOutcome(EvenBook(5, size), 3, BestEffort, rounding) == Err(Underflow)
  {
    var book := EvenBook(5, size);
    EvenBookTotal(5, size);
    ThreeFifths(rounding, size);
    EvenShares(5, size, 4, 3, rounding, 1);
    var s := ProRataShares(book, 3, rounding);
    hide RawShare, FirstShares, Available;
    assert s == FirstShares(book, 3, rounding, 4) + [-1];
    assert ProRataOutcome(book, 3, BestEffort, rounding) == SharesOutcome(book, s);
  }

  lemma {:induction false} ThreeFifths(rounding: Rounding, size: nat)
    requires rounding != Down && size > 0
    ensures RawShare(size, 3, 5 * size, rounding) == 1
  {
    assert (3 * size) / (5 * size) == 0 && (3 * size) % (5 * size) == 3 * size;
  }
}
