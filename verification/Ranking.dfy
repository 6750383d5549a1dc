/** Quote ranking: every strategy scores the quotes and sorts them, best score
    first. Scores are exact reals; the sort is specified by what a stable sort
    promises, and that specification has exactly one solution. */
module Ranking {
  import opened Domain
  import opened Permutations

  // ---------------------------------------------------------------------
  // The stable descending sort
  // ---------------------------------------------------------------------

  /** Quote i is placed before quote j: a better score, or the same score and
      an earlier position in the input. */
  predicate Ahead(scores: seq<real>, i: nat, j: nat)
    requires i < |scores| && j < |scores|
  {
    scores[i] > scores[j] || (scores[i] == scores[j] && i < j)
  }

  ghost predicate StablySorted(scores: seq<real>, order: seq<nat>) {
    && IsPermutation(order, |scores|)
    && forall a, b :: 0 <= a < b < |order| ==> Ahead(scores, order[a], order[b])
  }

  /** Places index `i` in front of the first listed index that it beats. */
  function Insert(scores: seq<real>, i: nat, order: seq<nat>): (r: seq<nat>)
    requires i < |scores| && forall k :: 0 <= k < |order| ==> order[k] < |scores|
    ensures forall k :: 0 <= k < |r| ==> r[k] < |scores|
  {
    if order == [] then [i]
    else if Ahead(scores, i, order[0]) then [i] + order
    else [order[0]] + Insert(scores, i, order[1..])
  }

  function OrderOfFirst(scores: seq<real>, n: nat): (r: seq<nat>)
    requires n <= |scores|
    ensures forall k :: 0 <= k < |r| ==> r[k] < |scores|
  {
    if n == 0 then [] else Insert(scores, n - 1, OrderOfFirst(scores, n - 1))
  }

  /** The input positions in rank order. */
  function Order(scores: seq<real>): (r: seq<nat>)
    ensures forall k :: 0 <= k < |r| ==> r[k] < |scores|
  {
    OrderOfFirst(scores, |scores|)
  }

  lemma {:induction false} InsertKeepsOrder(scores: seq<real>, i: nat, order: seq<nat>)
    requires i < |scores|
    requires forall k :: 0 <= k < |order| ==> order[k] < i
    requires forall a, b :: 0 <= a < b < |order| ==> Ahead(scores, order[a], order[b])
    ensures var r := Insert(scores, i, order);
            && |r| == |order| + 1
            && (forall x :: x in r <==> x == i || x in order)
            && (forall a, b :: 0 <= a < b < |r| ==> Ahead(scores, r[a], r[b]))
  {
    if order != [] && !Ahead(scores, i, order[0]) {
      InsertKeepsOrder(scores, i, order[1..]);
      var tail := Insert(scores, i, order[1..]);
      forall b | 0 <= b < |tail| ensures Ahead(scores, order[0], tail[b]) {
        assert tail[b] in tail;
      }
    } else if order != [] {
      forall b | 0 <= b < |order| ensures Ahead(scores, i, order[b]) {}
    }
  }

  lemma {:induction false} OrderOfFirstSorted(scores: seq<real>, n: nat)
    requires n <= |scores|
    ensures var r := OrderOfFirst(scores, n);
            && |r| == n
            && (forall x :: x in r ==> x < n)
            && (forall a, b :: 0 <= a < b < n ==> Ahead(scores, r[a], r[b]))
  {
    if n > 0 {
      OrderOfFirstSorted(scores, n - 1);
      var r := OrderOfFirst(scores, n - 1);
      forall k | 0 <= k < |r| ensures r[k] < n - 1 { assert r[k] in r; }
      InsertKeepsOrder(scores, n - 1, r);
    }
  }

  lemma {:induction false} OrderIsStablySorted(scores: seq<real>)
    ensures StablySorted(scores, Order(scores))
  {
    OrderOfFirstSorted(scores, |scores|);
  }

  /** In a stably sorted order, the position of a quote is the number of quotes
      that beat it. */
  lemma {:induction false} PositionCountsBetter(scores: seq<real>, order: seq<nat>, k: nat)
    requires StablySorted(scores, order) && k < |order|
    ensures |set j | 0 <= j < |scores| && Ahead(scores, j, order[k])| == k
  {
    var better := set j | 0 <= j < |scores| && Ahead(scores, j, order[k]);
    var front := order[..k];
    var placed := set a | 0 <= a < |front| :: front[a];
    forall j | j in better ensures j in placed {
      PermutationCovers(order, |scores|, j);
      var a :| 0 <= a < |order| && order[a] == j;
      assert a < k && front[a] == j;
    }
    forall j | j in placed ensures j in better {
      var a :| 0 <= a < k && front[a] == j;
      assert order[a] == j;
    }
    assert better == placed;
    CountDistinct(front);
  }

  /** A stable sort has only one result. */
  lemma {:induction false} StableOrderIsUnique(scores: seq<real>, order: seq<nat>, other: seq<nat>)
    requires StablySorted(scores, order) && StablySorted(scores, other)
    ensures order == other
  {
    forall k | 0 <= k < |order| ensures order[k] == other[k] {
      PermutationCovers(other, |scores|, order[k]);
      var m :| 0 <= m < |other| && other[m] == order[k];
      PositionCountsBetter(scores, order, k);
      PositionCountsBetter(scores, other, m);
    }
  }

  /** Two score lists give the same order exactly when they compare every pair
      of positions the same way. */
  lemma {:induction false} OrdersAgree(s: seq<real>, t: seq<real>)
    requires |s| == |t|
    ensures Order(s) == Order(t) <==>
            forall i, j :: 0 <= i < |s| && 0 <= j < |s| ==> (Ahead(s, i, j) <==> Ahead(t, i, j))
  {
    OrderIsStablySorted(s);
    OrderIsStablySorted(t);
    if Order(s) == Order(t) {
      forall i, j | 0 <= i < |s| && 0 <= j < |s| ensures Ahead(s, i, j) <==> Ahead(t, i, j) {
        PermutationCovers(Order(s), |s|, i);
        PermutationCovers(Order(s), |s|, j);
        var a :| 0 <= a < |s| && Order(s)[a] == i;
        var b :| 0 <= b < |s| && Order(s)[b] == j;
      }
    }
    if forall i, j :: 0 <= i < |s| && 0 <= j < |s| ==> (Ahead(s, i, j) <==> Ahead(t, i, j)) {
      StableOrderIsUnique(t, Order(s), Order(t));
    }
  }

  // ---------------------------------------------------------------------
  // Ranked quotes
  // ---------------------------------------------------------------------

  function RankByScores(quotes: seq<Quote>, scores: seq<real>): (r: seq<RankedQuote>)
    requires |quotes| == |scores|
  {
    var order := Order(scores);
    seq(|order|, k requires 0 <= k < |order| => RankedQuote(quotes[order[k]], k + 1, scores[order[k]]))
  }

  /** What `rank` returns: the input quotes, each once, numbered from 1, with
      non-increasing scores and with ties left in input order. */
  ghost predicate IsRanking(quotes: seq<Quote>, scores: seq<real>, ranked: seq<RankedQuote>, order: seq<nat>)
    requires |quotes| == |scores|
  {
    && IsPermutation(order, |quotes|)
    && |ranked| == |quotes|
    && (forall k :: 0 <= k < |ranked| ==>
          ranked[k] == RankedQuote(quotes[order[k]], k + 1, scores[order[k]]))
    && (forall a, b :: 0 <= a < b < |ranked| ==>
          ranked[a].score > ranked[b].score || (ranked[a].score == ranked[b].score && order[a] < order[b]))
  }

  lemma {:induction false} RankIsStableSort(quotes: seq<Quote>, scores: seq<real>)
    requires |quotes| == |scores|
    ensures IsRanking(quotes, scores, RankByScores(quotes, scores), Order(scores))
    ensures forall ranked, order :: IsRanking(quotes, scores, ranked, order) ==> ranked == RankByScores(quotes, scores)
  {
    OrderIsStablySorted(scores);
    forall ranked: seq<RankedQuote>, order: seq<nat> | IsRanking(quotes, scores, ranked, order)
      ensures ranked == RankByScores(quotes, scores)
    {
      assert forall a, b :: 0 <= a < b < |order| ==>
        ranked[a].score == scores[order[a]] && ranked[b].score == scores[order[b]];
      StableOrderIsUnique(scores, order, Order(scores));
    }
  }

  // ---------------------------------------------------------------------
  // The scores of the member strategies
  // ---------------------------------------------------------------------

  datatype Strategy =
    | BestPrice
    | LowestSlippage
    | LowestCost(commissionRate: real, gasCost: real)

  function Prices(quotes: seq<Quote>): (r: seq<real>) {
    seq(|quotes|, i requires 0 <= i < |quotes| => quotes[i].price as real)
  }

  function Smallest(xs: seq<real>): (m: real)
    requires xs != []
    ensures m in xs && forall k :: 0 <= k < |xs| ==> m <= xs[k]
  {
    var last := xs[|xs| - 1];
    if |xs| == 1 then last
    else
      var m := Smallest(xs[..|xs| - 1]);
      if last <= m then last else m
  }

  function Largest(xs: seq<real>): (m: real)
    requires xs != []
    ensures m in xs && forall k :: 0 <= k < |xs| ==> xs[k] <= m
  {
    var last := xs[|xs| - 1];
    if |xs| == 1 then last
    else
      var m := Largest(xs[..|xs| - 1]);
      if m <= last then last else m
  }

  function BestPriceScores(quotes: seq<Quote>, side: OrderSide): (r: seq<real>) {
    seq(|quotes|, i requires 0 <= i < |quotes| =>
      if side == Buy then -(quotes[i].price as real) else quotes[i].price as real)
  }

  function Slippage(price: real, best: real): real {
    if best == 0.0 then 0.0
    else
      var d := (price - best) / best;
      if d < 0.0 then -d else d
  }

  function SlippageScore(price: real, best: real): real {
    var s := Slippage(price, best);
    1.0 - (if s <= 1.0 then s else 1.0)
  }

  function SlippageScores(quotes: seq<Quote>, side: OrderSide): (r: seq<real>)
    requires quotes != []
  {
    var best := if side == Buy then Smallest(Prices(quotes)) else Largest(Prices(quotes));
    seq(|quotes|, i requires 0 <= i < |quotes| => SlippageScore(quotes[i].price as real, best))
  }

  function TotalCost(quote: Quote, commissionRate: real, gasCost: real): real {
    var base := quote.price as real * quote.quantity as real;
    base + base * commissionRate + gasCost
  }

  function TotalCosts(quotes: seq<Quote>, commissionRate: real, gasCost: real): (r: seq<real>) {
    seq(|quotes|, i requires 0 <= i < |quotes| => TotalCost(quotes[i], commissionRate, gasCost))
  }

  function CostScores(quotes: seq<Quote>, side: OrderSide, commissionRate: real, gasCost: real): (r: seq<real>)
    requires quotes != []
  {
    var costs := TotalCosts(quotes, commissionRate, gasCost);
    var lowest, highest := Smallest(costs), Largest(costs);
    var range := if highest - lowest < 1.0 then 1.0 else highest - lowest;
    seq(|quotes|, i requires 0 <= i < |quotes| =>
      if side == Buy then (highest - costs[i]) / range else (costs[i] - lowest) / range)
  }

  function Scores(strategy: Strategy, quotes: seq<Quote>, side: OrderSide): (r: seq<real>)
    requires quotes != []
    ensures |r| == |quotes|
  {
    match strategy
    case BestPrice => BestPriceScores(quotes, side)
    case LowestSlippage => SlippageScores(quotes, side)
    case LowestCost(rate, gas) => CostScores(quotes, side, rate, gas)
  }

  function Rank(strategy: Strategy, quotes: seq<Quote>, side: OrderSide): (r: seq<RankedQuote>) {
    if quotes == [] then [] else RankByScores(quotes, Scores(strategy, quotes, side))
  }

  // ---------------------------------------------------------------------
  // Lowest slippage against best price
  // ---------------------------------------------------------------------

  /** Dividing by a positive number keeps and reflects order. */
  lemma {:induction false} Quotients(x: real, y: real, d: real)
    requires d > 0.0
    ensures x / d < y / d <==> x < y
    ensures x / d == y / d <==> x == y
    ensures (x - d) / d == x / d - 1.0
  {
    var a, b := x / d, y / d;
    assert a * d == x && b * d == y;
    if a < b {
      assert (b - a) * d > 0.0;
    } else {
      assert (a - b) * d >= 0.0;
    }
    var c := (x - d) / d;
    assert c * d == x - d;
    assert (a - 1.0) * d == a * d - d;
    SameProduct(c, a - 1.0, d);
  }

  lemma {:induction false} SameProduct(u: real, v: real, d: real)
    requires d > 0.0 && u * d == v * d
    ensures u == v
  {
    assert (u - v) * d == 0.0;
  }

  lemma {:induction false} SlippageScoreValue(p: real, best: real)
    requires best > 0.0 && p >= 0.0
    ensures SlippageScore(p, best) ==
            if p <= best then p / best else if p <= 2.0 * best then 2.0 - p / best else 0.0
  {
    Quotients(p, best, best);
    Quotients(p, 0.0, best);
    Quotients(p, 2.0 * best, best);
    Quotients(2.0 * best, best, best);
    assert best / best == 1.0;
  }

  lemma {:induction false} SlippageCompare(p: real, q: real, best: real)
    requires best > 0.0 && p >= 0.0 && q >= 0.0
    ensures p >= best && q >= best ==>
              (SlippageScore(p, best) > SlippageScore(q, best) <==> p < q && p < 2.0 * best)
    ensures p <= best && q <= best ==>
              (SlippageScore(p, best) > SlippageScore(q, best) <==> p > q)
  {
    SlippageScoreValue(p, best);
    SlippageScoreValue(q, best);
    hide SlippageScore;
    InUnits(p, best);
    InUnits(q, best);
    Quotients(p, q, best);
    Quotients(q, p, best);
    UnitsCompare(p / best, q / best);
  }

  lemma {:induction false} InUnits(p: real, best: real)
    requires best > 0.0
    ensures p <= best <==> p / best <= 1.0
    ensures p >= best <==> p / best >= 1.0
    ensures p <= 2.0 * best <==> p / best <= 2.0
    ensures p < 2.0 * best <==> p / best < 2.0
  {
    Quotients(p, best, best);
    Quotients(best, p, best);
    Quotients(p, 2.0 * best, best);
    Quotients(2.0 * best, p, best);
    Quotients(2.0 * best, best, best);
    assert best / best == 1.0;
  }

  /** The scores of two prices, both given in units of the best one. */
  lemma {:induction false} UnitsCompare(u: real, v: real)
    ensures var s, t := (if u <= 1.0 then u else if u <= 2.0 then 2.0 - u else 0.0), (if v <= 1.0 then v else if v <= 2.0 then 2.0 - v else 0.0);
            && (u >= 1.0 && v >= 1.0 ==> (s > t <==> u < v && u < 2.0))
            && (u <= 1.0 && v <= 1.0 ==> (s > t <==> u > v))
  {
  }

  /** A later, cheaper quote that already costs twice the minimum or more. */
  ghost predicate CappedInversion(quotes: seq<Quote>, i: nat, j: nat)
    requires quotes != []
  {
    && i < j < |quotes|
    && quotes[i].price > quotes[j].price
    && quotes[j].price as real >= 2.0 * Smallest(Prices(quotes))
  }

  lemma {:induction false} BuySlippageCompare(quotes: seq<Quote>, i: nat, j: nat)
    requires i < |quotes| && j < |quotes|
    ensures SlippageScores(quotes, Buy)[i] > SlippageScores(quotes, Buy)[j] <==>
            quotes[i].price < quotes[j].price && quotes[i].price as real < 2.0 * Smallest(Prices(quotes))
  {
    var best := Smallest(Prices(quotes));
    assert Prices(quotes)[i] == quotes[i].price as real && Prices(quotes)[j] == quotes[j].price as real;
    if best > 0.0 {
      SlippageCompare(quotes[i].price as real, quotes[j].price as real, best);
    } else {
      var k :| 0 <= k < |quotes| && Prices(quotes)[k] == best;
    }
  }

  lemma {:induction false} PairAgrees(quotes: seq<Quote>, s: seq<real>, b: seq<real>, least: real, i: nat, j: nat)
    requires i < j < |quotes| && |s| == |b| == |quotes|
    requires least == Smallest(Prices(quotes))
    requires b[i] == -(quotes[i].price as real) && b[j] == -(quotes[j].price as real)
    requires s[i] > s[j] <==> quotes[i].price < quotes[j].price && quotes[i].price as real < 2.0 * least
    requires s[j] > s[i] <==> quotes[j].price < quotes[i].price && quotes[j].price as real < 2.0 * least
    ensures (Ahead(s, i, j) <==> Ahead(b, i, j)) <==> !CappedInversion(quotes, i, j)
    ensures (Ahead(s, j, i) <==> Ahead(b, j, i)) <==> !CappedInversion(quotes, i, j)
  {
  }

  /** For a Buy book, LowestSlippage and BestPrice rank alike exactly when no
      quote is followed by a cheaper one priced at twice the minimum or above,
      where the slippage is capped. */
  lemma {:induction false} SlippageMatchesBestPriceBuy(quotes: seq<Quote>)
    requires quotes != []
    ensures Order(SlippageScores(quotes, Buy)) == Order(BestPriceScores(quotes, Buy)) <==>
            forall i, j :: 0 <= i < j < |quotes| ==> !CappedInversion(quotes, i, j)
  {
    var s, b := SlippageScores(quotes, Buy), BestPriceScores(quotes, Buy);
    OrdersAgree(s, b);
    forall i, j | 0 <= i < j < |quotes|
      ensures (Ahead(s, i, j) <==> Ahead(b, i, j)) <==> !CappedInversion(quotes, i, j)
      ensures (Ahead(s, j, i) <==> Ahead(b, j, i)) <==> !CappedInversion(quotes, i, j)
    {
      BuySlippageCompare(quotes, i, j);
      BuySlippageCompare(quotes, j, i);
      PairAgrees(quotes, s, b, Smallest(Prices(quotes)), i, j);
    }
    if forall i, j :: 0 <= i < j < |quotes| ==> !CappedInversion(quotes, i, j) {
      forall i, j | 0 <= i < |s| && 0 <= j < |s| ensures Ahead(s, i, j) <==> Ahead(b, i, j) {
        assert i < j || j < i || i == j;
      }
    }
  }

  /** For a Sell book they always rank alike. */
  lemma {:induction false} SlippageMatchesBestPriceSell(quotes: seq<Quote>)
    requires quotes != []
    ensures Order(SlippageScores(quotes, Sell)) == Order(BestPriceScores(quotes, Sell))
  {
    var s, b := SlippageScores(quotes, Sell), BestPriceScores(quotes, Sell);
    var best := Largest(Prices(quotes));
    forall i, j | 0 <= i < |s| && 0 <= j < |s| ensures Ahead(s, i, j) <==> Ahead(b, i, j) {
      var p, q := quotes[i].price as real, quotes[j].price as real;
      assert Prices(quotes)[i] == p && Prices(quotes)[j] == q;
      if best > 0.0 {
        SlippageCompare(p, q, best);
        SlippageCompare(q, p, best);
      }
    }
    OrdersAgree(s, b);
  }

  /** BestPrice puts the cheaper quote ahead for a buyer and the dearer one for a
      seller; the score is the price, counted down for a buyer. */
  lemma {:induction false} BestPriceOrder(quotes: seq<Quote>, side: OrderSide, i: nat, j: nat)
    requires i < |quotes| && j < |quotes|
    ensures var s, p, q := Scores(BestPrice, quotes, side), quotes[i].price, quotes[j].price;
            && (Ahead(s, i, j) <==> (if side == Buy then p < q else p > q) || (p == q && i < j))
            && s[i] == if side == Buy then 0.0 - p as real else p as real
  {
  }

  /** LowestCost puts the quote with the lower total cost ahead for a buyer and
      the one with the higher for a seller; ties keep their input order. Scores
      lie between 0 and 1. */
  lemma {:induction false} CostOrder(quotes: seq<Quote>, side: OrderSide, rate: real, gas: real, i: nat, j: nat)
    requires i < |quotes| && j < |quotes|
    ensures var s := Scores(LowestCost(rate, gas), quotes, side);
            var c, d := TotalCost(quotes[i], rate, gas), TotalCost(quotes[j], rate, gas);
            && (Ahead(s, i, j) <==> (if side == Buy then c < d else c > d) || (c == d && i < j))
            && 0.0 <= s[i] <= 1.0
  {
    hide *;
    CostScoreOf(quotes, side, rate, gas, i);
    CostScoreOf(quotes, side, rate, gas, j);
    var lowest, highest := Smallest(TotalCosts(quotes, rate, gas)), Largest(TotalCosts(quotes, rate, gas));
    CostScore(TotalCost(quotes[i], rate, gas), TotalCost(quotes[j], rate, gas), lowest, highest,
              if highest - lowest < 1.0 then 1.0 else highest - lowest);
    AheadIs(Scores(LowestCost(rate, gas), quotes, side), i, j);
  }

  lemma {:induction false} AheadIs(scores: seq<real>, i: nat, j: nat)
    requires i < |scores| && j < |scores|
    ensures Ahead(scores, i, j) <==> scores[i] > scores[j] || (scores[i] == scores[j] && i < j)
  {
  }

  lemma {:induction false} CostScoreOf(quotes: seq<Quote>, side: OrderSide, rate: real, gas: real, k: nat)
    requires k < |quotes|
    ensures |TotalCosts(quotes, rate, gas)| == |quotes|
    ensures var lowest, highest := Smallest(TotalCosts(quotes, rate, gas)), Largest(TotalCosts(quotes, rate, gas));
            var range, cost := (if highest - lowest < 1.0 then 1.0 else highest - lowest), TotalCost(quotes[k], rate, gas);
            && lowest <= cost <= highest
            && Scores(LowestCost(rate, gas), quotes, side)[k] ==
               if side == Buy then (highest - cost) / range else (cost - lowest) / range
  {
    hide TotalCost, Smallest, Largest;
    assert TotalCosts(quotes, rate, gas)[k] == TotalCost(quotes[k], rate, gas);
  }

  /** The total cost is the value of the quote with the commission on top, and
      the gas. */
  lemma {:induction false} TotalCostAdds(quote: Quote, rate: real, gas: real)
    ensures TotalCost(quote, 0.0, 0.0) == (quote.price * quote.quantity) as real
    ensures TotalCost(quote, rate, gas) == TotalCost(quote, 0.0, 0.0) + TotalCost(quote, 0.0, 0.0) * rate + gas
  {
    assert quote.price as real * quote.quantity as real == (quote.price * quote.quantity) as real;
  }

  lemma {:induction false} CostScore(c: real, d: real, lowest: real, highest: real, range: real)
    requires lowest <= c <= highest && lowest <= d <= highest
    requires range >= 1.0 && range >= highest - lowest
    ensures 0.0 <= (highest - c) / range <= 1.0 && 0.0 <= (c - lowest) / range <= 1.0
    ensures (highest - c) / range > (highest - d) / range <==> c < d
    ensures (c - lowest) / range > (d - lowest) / range <==> c > d
    ensures (highest - c) / range == (highest - d) / range <==> c == d
    ensures (c - lowest) / range == (d - lowest) / range <==> c == d
  {
    assert range / range == 1.0 && 0.0 / range == 0.0;
    Quotients(0.0, highest - c, range);
    Quotients(highest - c, range, range);
    Quotients(0.0, c - lowest, range);
    Quotients(c - lowest, range, range);
    Quotients(highest - d, highest - c, range);
    Quotients(d - lowest, c - lowest, range);
  }

  // ---------------------------------------------------------------------
  // Composite strategy
  // ---------------------------------------------------------------------

  // A member strategy enters through the scores it gives to the quotes of the
  // book, so the results hold for every strategy that ranks by scoring.
  datatype Member = Member(scores: seq<real>, weight: real)

  ghost predicate MembersOf(members: seq<Member>, n: nat) {
    forall m :: 0 <= m < |members| ==> |members[m].scores| == n
  }

  function TotalWeight(members: seq<Member>): real {
    if members == [] then 0.0 else TotalWeight(members[..|members| - 1]) + members[|members| - 1].weight
  }

  ghost predicate DistinctIds(quotes: seq<Quote>) {
    forall i, j :: 0 <= i < j < |quotes| ==> quotes[i].id != quotes[j].id
  }

  /** The first position whose quote carries `id`. */
  function FirstWithId(quotes: seq<Quote>, id: nat): (k: nat)
    requires exists i :: 0 <= i < |quotes| && quotes[i].id == id
    ensures k < |quotes| && quotes[k].id == id && forall i :: 0 <= i < k ==> quotes[i].id != id
  {
    if quotes[0].id == id then 0
    else
      assert exists i :: 0 <= i < |quotes[1..]| && quotes[1..][i].id == id by {
        var i :| 0 <= i < |quotes| && quotes[i].id == id;
        assert quotes[1..][i - 1].id == id;
      }
      1 + FirstWithId(quotes[1..], id)
  }

  /** A member's scores, each multiplied by its weight. */
  function Weighted(member: Member): (r: seq<real>) {
    seq(|member.scores|, i requires 0 <= i < |member.scores| => member.scores[i] * member.weight)
  }

  /** The sum of the members' weighted scores at position i. */
  function WeightedScore(members: seq<Member>, n: nat, i: nat): real
    requires MembersOf(members, n) && i < n
    decreases |members|
  {
    if members == [] then 0.0
    else WeightedScore(members[..|members| - 1], n, i) + Weighted(members[|members| - 1])[i]
  }

  /** Weighted average, or the bare sum when no member carries weight. */
  function CombinedScores(members: seq<Member>, n: nat): (r: seq<real>)
    requires MembersOf(members, n)
  {
    var w := TotalWeight(members);
    seq(n, i requires 0 <= i < n =>
      if w > 0.0 then WeightedScore(members, n, i) / w else WeightedScore(members, n, i))
  }

  method CompositeRank(members: seq<Member>, quotes: seq<Quote>) returns (ranked: seq<RankedQuote>)
    requires MembersOf(members, |quotes|)
    ensures quotes == [] || members == [] ==> ranked == []
    ensures DistinctIds(quotes) && quotes != [] && members != [] ==>
              ranked == RankByScores(quotes, CombinedScores(members, |quotes|))
  {
    if quotes == [] || members == [] {
      return [];
    }
    var n := |quotes|;
    var combined := seq(n, _ => 0.0);
    var total := 0.0;
    for m := 0 to |members|
      invariant |combined| == n
      invariant total == TotalWeight(members[..m])
      invariant DistinctIds(quotes) ==>
                  forall i :: 0 <= i < n ==> combined[i] == WeightedScore(members[..m], n, i)
    {
      assert members[..m + 1][..m] == members[..m];
      combined := AddMember(combined, members[m], quotes);
      total := total + members[m].weight;
    }
    assert members[..|members|] == members;
    if total > 0.0 {
      var sums := combined;
      combined := seq(n, i requires 0 <= i < n => sums[i] / total);
    }
    assert DistinctIds(quotes) ==> combined == CombinedScores(members, n);
    ranked := RankByScores(quotes, combined);
  }

  /** Adds one member's weighted scores, walking its ranking and looking each
      quote up by id. */
  method AddMember(before: seq<real>, member: Member, quotes: seq<Quote>) returns (combined: seq<real>)
    requires |before| == |quotes| == |member.scores|
    ensures |combined| == |quotes|
    ensures DistinctIds(quotes) ==> forall i :: 0 <= i < |quotes| ==>
              combined[i] == before[i] + Weighted(member)[i]
  {
    ghost var scores := member.scores;
    ghost var order := Order(scores);
    var ranked := RankByScores(quotes, member.scores);
    OrderIsStablySorted(scores);
    combined := before;
    for k := 0 to |ranked|
      invariant |combined| == |quotes|
      invariant DistinctIds(quotes) ==> forall a :: 0 <= a < |ranked| ==>
                  combined[order[a]] == if a < k then before[order[a]] + Weighted(member)[order[a]] else before[order[a]]
    {
      assert ranked[k].quote == quotes[order[k]];
      var idx := FirstWithId(quotes, ranked[k].quote.id);
      assert DistinctIds(quotes) ==> idx == order[k];
      combined := combined[idx := combined[idx] + ranked[k].score * member.weight];
    }
    forall i | 0 <= i < |quotes| && DistinctIds(quotes)
      ensures combined[i] == before[i] + Weighted(member)[i]
    {
      PermutationCovers(order, |quotes|, i);
    }
  }

  ghost predicate NonNegativeWeights(members: seq<Member>) {
    forall m :: 0 <= m < |members| ==> members[m].weight >= 0.0
  }

  /** Every member gives position i at least the score of position j. */
  ghost predicate NoWorse(members: seq<Member>, n: nat, i: nat, j: nat)
    requires MembersOf(members, n) && i < n && j < n
  {
    forall m :: 0 <= m < |members| ==> members[m].scores[i] >= members[m].scores[j]
  }

  ghost predicate SomewhereBetter(members: seq<Member>, n: nat, i: nat, j: nat)
    requires MembersOf(members, n) && i < n && j < n
  {
    exists m :: 0 <= m < |members| && members[m].weight > 0.0 && members[m].scores[i] > members[m].scores[j]
  }

  lemma {:induction false} WeightedPair(member: Member, i: nat, j: nat)
    requires i < |member.scores| && j < |member.scores|
    requires member.weight >= 0.0 && member.scores[i] >= member.scores[j]
    ensures Weighted(member)[i] >= Weighted(member)[j]
    ensures member.weight > 0.0 && member.scores[i] > member.scores[j] ==> Weighted(member)[i] > Weighted(member)[j]
  {
    var d, w := member.scores[i] - member.scores[j], member.weight;
    assert d * w >= 0.0;
    assert d > 0.0 && w > 0.0 ==> d * w > 0.0;
    assert d * w == member.scores[i] * w - member.scores[j] * w;
  }

  /** Sums of columns, apart from what the columns hold. */
  ghost function ColumnSum(columns: seq<seq<real>>, n: nat, i: nat): real
    requires (forall m :: 0 <= m < |columns| ==> |columns[m]| == n) && i < n
    decreases |columns|
  {
    if columns == [] then 0.0
    else ColumnSum(columns[..|columns| - 1], n, i) + columns[|columns| - 1][i]
  }

  ghost function Columns(members: seq<Member>): (c: seq<seq<real>>) {
    seq(|members|, m requires 0 <= m < |members| => Weighted(members[m]))
  }

  lemma {:induction false} ScoreIsColumnSum(members: seq<Member>, n: nat, i: nat)
    requires MembersOf(members, n) && i < n
    ensures WeightedScore(members, n, i) == ColumnSum(Columns(members), n, i)
    decreases |members|
  {
    if members != [] {
      ScoreIsColumnSum(members[..|members| - 1], n, i);
      assert Columns(members)[..|members| - 1] == Columns(members[..|members| - 1]);
    }
  }

  lemma {:induction false} ColumnSumsCompare(columns: seq<seq<real>>, n: nat, i: nat, j: nat)
    requires (forall m :: 0 <= m < |columns| ==> |columns[m]| == n) && i < n && j < n
    requires forall m :: 0 <= m < |columns| ==> columns[m][i] >= columns[m][j]
    ensures ColumnSum(columns, n, i) >= ColumnSum(columns, n, j)
    ensures (exists m :: 0 <= m < |columns| && columns[m][i] > columns[m][j]) ==>
              ColumnSum(columns, n, i) > ColumnSum(columns, n, j)
    decreases |columns|
  {
    if columns != [] {
      var init := columns[..|columns| - 1];
      ColumnSumsCompare(init, n, i, j);
      if m :| 0 <= m < |columns| && columns[m][i] > columns[m][j] {
        assert m < |init| ==> init[m] == columns[m];
      }
    }
  }

  lemma {:induction false} TotalWeightPositive(members: seq<Member>)
    requires NonNegativeWeights(members)
    ensures TotalWeight(members) >= 0.0
    ensures forall m :: 0 <= m < |members| ==> TotalWeight(members) >= members[m].weight
  {
    if members != [] {
      TotalWeightPositive(members[..|members| - 1]);
    }
  }

  lemma {:induction false} WeightedScoresCompare(members: seq<Member>, n: nat, i: nat, j: nat)
    requires MembersOf(members, n) && NonNegativeWeights(members) && i < n && j < n
    requires NoWorse(members, n, i, j)
    ensures SomewhereBetter(members, n, i, j) ==> WeightedScore(members, n, i) > WeightedScore(members, n, j)
    ensures WeightedScore(members, n, i) >= WeightedScore(members, n, j)
  {
    var c := Columns(members);
    forall m | 0 <= m < |members| ensures |c[m]| == n && c[m][i] >= c[m][j] {
      WeightedPair(members[m], i, j);
    }
    ScoreIsColumnSum(members, n, i);
    ScoreIsColumnSum(members, n, j);
    ColumnSumsCompare(c, n, i, j);
    if SomewhereBetter(members, n, i, j) {
      var m :| 0 <= m < |members| && members[m].weight > 0.0 && members[m].scores[i] > members[m].scores[j];
      WeightedPair(members[m], i, j);
      assert c[m][i] > c[m][j];
    }
  }

  /** A quote no worse than another under every member, and strictly better
      under one that carries weight, is ranked ahead of it. */
  lemma {:induction false} CompositeRespectsDominance(members: seq<Member>, n: nat, i: nat, j: nat)
    requires MembersOf(members, n) && NonNegativeWeights(members) && i < n && j < n
    requires NoWorse(members, n, i, j) && SomewhereBetter(members, n, i, j)
    ensures Ahead(CombinedScores(members, n), i, j)
  {
    WeightedScoresCompare(members, n, i, j);
    TotalWeightPositive(members);
    Quotients(WeightedScore(members, n, j), WeightedScore(members, n, i), TotalWeight(members));
  }

  /** One member of positive weight: the composite ranks as that member does. */
  lemma {:induction false} CompositeOfOne(member: Member, n: nat)
    requires member.weight > 0.0 && |member.scores| == n
    ensures CombinedScores([member], n) == member.scores
  {
    var one := [member];
    assert one[..0] == [];
    assert TotalWeight(one) == member.weight;
    forall i | 0 <= i < n ensures CombinedScores(one, n)[i] == member.scores[i] {
      assert WeightedScore(one, n, i) == member.scores[i] * member.weight;
      Cancel(member.scores[i], member.weight);
    }
  }

  /** One member more: the combined score is the average of what the others give
      together and what the new one gives, each by its weight. */
  lemma {:induction false} CompositeAverages(members: seq<Member>, member: Member, n: nat, i: nat)
    requires MembersOf(members, n) && |member.scores| == n && i < n
    requires members != [] ==> TotalWeight(members) > 0.0
    requires TotalWeight(members) + member.weight > 0.0
    ensures MembersOf(members + [member], n)
    ensures TotalWeight(members + [member]) == TotalWeight(members) + member.weight
    ensures var w := TotalWeight(members);
            CombinedScores(members + [member], n)[i] * (w + member.weight)
            == CombinedScores(members, n)[i] * w + member.scores[i] * member.weight
  {
    hide *;
    OneMemberMore(members, member, n, i);
    CombinedTimesWeight(members, n, i);
    CombinedTimesWeight(members + [member], n, i);
  }

  lemma {:induction false} OneMemberMore(members: seq<Member>, member: Member, n: nat, i: nat)
    requires MembersOf(members, n) && |member.scores| == n && i < n
    ensures MembersOf(members + [member], n) && members + [member] != []
    ensures TotalWeight(members + [member]) == TotalWeight(members) + member.weight
    ensures WeightedScore(members + [member], n, i) == WeightedScore(members, n, i) + member.scores[i] * member.weight
  {
    assert (members + [member])[..|members|] == members;
  }

  lemma {:induction false} CombinedTimesWeight(members: seq<Member>, n: nat, i: nat)
    requires MembersOf(members, n) && i < n && (members != [] ==> TotalWeight(members) > 0.0)
    ensures |CombinedScores(members, n)| == n
    ensures CombinedScores(members, n)[i] * TotalWeight(members) == WeightedScore(members, n, i)
  {
    if members != [] {
      hide WeightedScore, TotalWeight;
      Undivided(WeightedScore(members, n, i), TotalWeight(members));
    }
  }

  /** When no member carries weight the combined score is the bare sum. */
  lemma {:induction false} CompositeUnweighted(members: seq<Member>, member: Member, n: nat, i: nat)
    requires MembersOf(members, n) && |member.scores| == n && i < n
    requires TotalWeight(members) <= 0.0 && TotalWeight(members) + member.weight <= 0.0
    ensures MembersOf(members + [member], n)
    ensures CombinedScores(members + [member], n)[i] == CombinedScores(members, n)[i] + member.scores[i] * member.weight
    ensures CombinedScores([], n)[i] == 0.0
  {
    assert (members + [member])[..|members|] == members;
  }

  lemma {:induction false} Undivided(x: real, w: real)
    requires w > 0.0
    ensures x / w * w == x
  {
  }

  lemma {:induction false} Cancel(x: real, w: real)
    requires w > 0.0
    ensures x * w / w == x
  {
  }

  lemma {:induction false} WeightedScoreRemove(members: seq<Member>, n: nat, i: nat, k: nat)
    requires MembersOf(members, n) && i < n && k < |members|
    ensures var rest := members[..k] + members[k + 1..];
            && WeightedScore(members, n, i) == WeightedScore(rest, n, i) + Weighted(members[k])[i]
            && TotalWeight(members) == TotalWeight(rest) + members[k].weight
    decreases |members|
  {
    var last := |members| - 1;
    var rest := members[..k] + members[k + 1..];
    if k == last {
      assert rest == members[..last];
    } else {
      WeightedScoreRemove(members[..last], n, i, k);
      assert rest[..last - 1] == members[..last][..k] + members[..last][k + 1..];
    }
  }

  /** Finds the last member of one listing in another listing of the same members. */
  lemma {:induction false} TakeFrom(members: seq<Member>, other: seq<Member>) returns (k: nat)
    requires members != [] && multiset(members) == multiset(other)
    ensures k < |other| && other[k] == members[|members| - 1]
    ensures multiset(members[..|members| - 1]) == multiset(other[..k] + other[k + 1..])
  {
    var last := |members| - 1;
    assert members[last] in multiset(other);
    k :| 0 <= k < |other| && other[k] == members[last];
    assert members == members[..last] + [members[last]];
    assert other == other[..k] + [other[k]] + other[k + 1..];
    assert multiset(other) == multiset(other[..k] + other[k + 1..]) + multiset{other[k]};
    assert multiset(members) == multiset(members[..last]) + multiset{members[last]};
    assert multiset(members[..last]) == multiset(members) - multiset{members[last]};
    assert multiset(other[..k] + other[k + 1..]) == multiset(other) - multiset{other[k]};
  }

  lemma {:induction false} WeightedScorePermuted(members: seq<Member>, other: seq<Member>, n: nat, i: nat)
    requires MembersOf(members, n) && MembersOf(other, n) && i < n && multiset(members) == multiset(other)
    ensures WeightedScore(members, n, i) == WeightedScore(other, n, i)
    ensures TotalWeight(members) == TotalWeight(other)
    decreases |members|
  {
    if members == [] {
      assert |multiset(other)| == 0;
    } else {
      var last := |members| - 1;
      var k := TakeFrom(members, other);
      var rest := other[..k] + other[k + 1..];
      WeightedScoreRemove(other, n, i, k);
      WeightedScorePermuted(members[..last], rest, n, i);
    }
  }

  /** The order in which the members are listed does not matter. */
  lemma {:induction false} CompositeIgnoresMemberOrder(members: seq<Member>, other: seq<Member>, n: nat)
    requires MembersOf(members, n) && MembersOf(other, n) && multiset(members) == multiset(other)
    ensures CombinedScores(members, n) == CombinedScores(other, n)
  {
    forall i | 0 <= i < n ensures CombinedScores(members, n)[i] == CombinedScores(other, n)[i] {
      WeightedScorePermuted(members, other, n, i);
    }
  }
}
