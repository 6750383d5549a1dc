/** Collecting quotes from venues, filtering, ranking and cutting to the best. */
module Aggregation {
  import opened Domain
  import opened Permutations
  import opened Ranking

  /** What one venue's task ends with: a quote, or a failure, timeout or panic. */
  datatype Reply = Quoted(quote: Quote, expired: bool) | Failed(reason: nat)

  datatype MaxQuotes = Unlimited | AtMost(max: nat)

  datatype Config = Config(minQuotes: nat, maxQuotes: MaxQuotes)

  datatype AggregationError =
    | NoVenuesAvailable
    | InsufficientQuotes(collected: nat, required: nat)
    | Timeout
    | AllVenuesFailed(errors: seq<nat>)

  /** Panic: the count of responding venues would be negative. */
  datatype Outcome =
    | Ranked(quotes: seq<RankedQuote>, totalCollected: nat, venuesResponded: nat, filteredCount: nat)
    | Refused(error: AggregationError)
    | Panic

  // ---------------------------------------------------------------------
  // Collecting
  // ---------------------------------------------------------------------

  /** The first n replies that are quotes, in the order of the venues. */
  ghost function QuotesIn(replies: seq<Reply>, n: nat): (r: seq<Reply>)
    requires n <= |replies|
    ensures forall i :: 0 <= i < |r| ==> r[i].Quoted?
  {
    if n == 0 then []
    else if replies[n - 1].Quoted? then QuotesIn(replies, n - 1) + [replies[n - 1]]
    else QuotesIn(replies, n - 1)
  }

  ghost function ErrorsIn(replies: seq<Reply>, n: nat): (r: seq<nat>)
    requires n <= |replies|
    ensures |r| + |QuotesIn(replies, n)| == n
  {
    if n == 0 then []
    else if replies[n - 1].Failed? then ErrorsIn(replies, n - 1) + [replies[n - 1].reason]
    else ErrorsIn(replies, n - 1)
  }

  /** The quotes among the first n replies that have not expired. */
  ghost function ValidIn(replies: seq<Reply>, n: nat): (r: seq<Quote>)
    requires n <= |replies|
    ensures |r| <= |QuotesIn(replies, n)|
  {
    if n == 0 then []
    else if replies[n - 1].Quoted? && !replies[n - 1].expired then ValidIn(replies, n - 1) + [replies[n - 1].quote]
    else ValidIn(replies, n - 1)
  }

  method CollectFromVenues(replies: seq<Reply>) returns (quotes: seq<Reply>, errors: seq<nat>)
    ensures quotes == QuotesIn(replies, |replies|) && errors == ErrorsIn(replies, |replies|)
  {
    quotes, errors := [], [];
    for i := 0 to |replies|
      invariant quotes == QuotesIn(replies, i) && errors == ErrorsIn(replies, i)
    {
      match replies[i]
      case Quoted(_, _) => quotes := quotes + [replies[i]];
      case Failed(reason) => errors := errors + [reason];
    }
  }

  function Unexpired(quotes: seq<Reply>): (r: seq<Quote>)
    requires forall i :: 0 <= i < |quotes| ==> quotes[i].Quoted?
  {
    if quotes == [] then []
    else
      var init, last := Unexpired(quotes[..|quotes| - 1]), quotes[|quotes| - 1];
      if last.expired then init else init + [last.quote]
  }

  /** Filtering what was collected leaves the valid quotes, in venue order. */
  lemma {:induction false} UnexpiredIsValid(replies: seq<Reply>, n: nat)
    requires n <= |replies|
    ensures Unexpired(QuotesIn(replies, n)) == ValidIn(replies, n)
  {
    if n > 0 {
      UnexpiredIsValid(replies, n - 1);
      if replies[n - 1].Quoted? {
        assert QuotesIn(replies, n)[..|QuotesIn(replies, n)| - 1] == QuotesIn(replies, n - 1);
      }
    }
  }

  function IsQuote(replies: seq<Reply>): nat -> bool {
    (i: nat) => i < |replies| && replies[i].Quoted?
  }

  function IsError(replies: seq<Reply>): nat -> bool {
    (i: nat) => i < |replies| && replies[i].Failed?
  }

  function IsValid(replies: seq<Reply>): nat -> bool {
    (i: nat) => i < |replies| && replies[i].Quoted? && !replies[i].expired
  }

  /** What is collected: every quote, each from its own reply, in the order of the
      venues. */
  lemma {:induction false} QuotesPicked(replies: seq<Reply>, n: nat) returns (picked: seq<nat>)
    requires n <= |replies|
    ensures Picks(picked, n, IsQuote(replies)) && |QuotesIn(replies, n)| == |picked|
    ensures forall k :: 0 <= k < |picked| ==>
              && picked[k] < |replies| && replies[picked[k]].Quoted?
              && QuotesIn(replies, n)[k] == replies[picked[k]]
  {
    hide Picks;
    if n == 0 {
      picked := [];
      NothingPicked(IsQuote(replies));
    } else {
      var before := QuotesPicked(replies, n - 1);
      PicksStep(before, n - 1, IsQuote(replies));
      assert IsQuote(replies)(n - 1) <==> replies[n - 1].Quoted?;
      picked := if replies[n - 1].Quoted? then before + [n - 1] else before;
    }
  }

  /** Every error, likewise. */
  lemma {:induction false} ErrorsPicked(replies: seq<Reply>, n: nat) returns (picked: seq<nat>)
    requires n <= |replies|
    ensures Picks(picked, n, IsError(replies)) && |ErrorsIn(replies, n)| == |picked|
    ensures forall k :: 0 <= k < |picked| ==>
              && picked[k] < |replies| && replies[picked[k]].Failed?
              && ErrorsIn(replies, n)[k] == replies[picked[k]].reason
  {
    hide Picks;
    if n == 0 {
      picked := [];
      NothingPicked(IsError(replies));
    } else {
      var before := ErrorsPicked(replies, n - 1);
      PicksStep(before, n - 1, IsError(replies));
      assert IsError(replies)(n - 1) <==> replies[n - 1].Failed?;
      picked := if replies[n - 1].Failed? then before + [n - 1] else before;
    }
  }

  /** And what is left to rank: every quote that has not expired. */
  lemma {:induction false} ValidPicked(replies: seq<Reply>, n: nat) returns (picked: seq<nat>)
    requires n <= |replies|
    ensures Picks(picked, n, IsValid(replies)) && |ValidIn(replies, n)| == |picked|
    ensures forall k :: 0 <= k < |picked| ==>
              && picked[k] < |replies| && replies[picked[k]].Quoted?
              && ValidIn(replies, n)[k] == replies[picked[k]].quote
  {
    hide Picks;
    if n == 0 {
      picked := [];
      NothingPicked(IsValid(replies));
    } else {
      var before := ValidPicked(replies, n - 1);
      PicksStep(before, n - 1, IsValid(replies));
      assert IsValid(replies)(n - 1) <==> replies[n - 1].Quoted? && !replies[n - 1].expired;
      picked := if replies[n - 1].Quoted? && !replies[n - 1].expired then before + [n - 1] else before;
    }
  }

  // ---------------------------------------------------------------------
  // Ranking and cutting
  // ---------------------------------------------------------------------

  function Cut(ranked: seq<RankedQuote>, maxQuotes: MaxQuotes): (r: seq<RankedQuote>)
    ensures r <= ranked
  {
    if maxQuotes.AtMost? && maxQuotes.max < |ranked| then ranked[..maxQuotes.max] else ranked
  }

  /** `queried` venues were registered when the call began; `replies` come from
      those registered when the quotes were requested. */
  method CollectAndRank(config: Config, strategy: Strategy, side: OrderSide, queried: nat, replies: seq<Reply>, inTime: bool)
    returns (r: Outcome)
    ensures r == Refused(NoVenuesAvailable) <==> queried == 0
    ensures r == Refused(Timeout) <==> queried > 0 && !inTime
    ensures queried > 0 && inTime ==>
              var valid, errors := ValidIn(replies, |replies|), ErrorsIn(replies, |replies|);
              && (r == Panic <==> |errors| > queried)
              && (r.Ranked? <==> |errors| <= queried && |valid| >= config.minQuotes && (valid == [] ==> errors == []))
              && (r.Ranked? ==>
                    && r.quotes == Cut(Rank(strategy, valid, side), config.maxQuotes)
                    && r.totalCollected + |errors| == |replies|
                    && r.venuesResponded + |errors| == queried
                    && r.filteredCount + |valid| == r.totalCollected)
              && (r.Refused? ==>
                    r.error == if valid == [] && errors != [] then AllVenuesFailed(errors)
                               else InsufficientQuotes(|valid|, config.minQuotes))
  {
    hide Rank;
    if queried == 0 {
      return Refused(NoVenuesAvailable);
    }
    if !inTime {
      return Refused(Timeout);
    }
    var quotes, errors := CollectFromVenues(replies);
    if |errors| > queried {
      return Panic;
    }
    var venuesResponded := queried - |errors|;
    var valid := Unexpired(quotes);
    UnexpiredIsValid(replies, |replies|);
    var filteredCount := |quotes| - |valid|;
    if valid == [] && errors != [] {
      return Refused(AllVenuesFailed(errors));
    }
    if |valid| < config.minQuotes {
      return Refused(InsufficientQuotes(|valid|, config.minQuotes));
    }
    var ranked := Rank(strategy, valid, side);
    r := Ranked(Cut(ranked, config.maxQuotes), |quotes|, venuesResponded, filteredCount);
  }

  /** The cut keeps the best: the survivors are a prefix of the ranking numbered
      from 1, and no quote that is dropped scores better than one that stays. */
  lemma {:induction false} CutKeepsBest(strategy: Strategy, valid: seq<Quote>, side: OrderSide, maxQuotes: MaxQuotes)
    ensures var ranked := Rank(strategy, valid, side);
            var kept := Cut(ranked, maxQuotes);
            && |ranked| == |valid|
            && (maxQuotes.AtMost? ==> |kept| == Min(maxQuotes.max, |valid|))
            && (forall i :: 0 <= i < |kept| ==> kept[i].rank == i + 1)
            && (forall i, j :: 0 <= i < |kept| <= j < |ranked| ==> kept[i].score >= ranked[j].score)
  {
    hide RankByScores, Scores, Order, IsPermutation;
    if valid != [] {
      RankIsStableSort(valid, Scores(strategy, valid, side));
    }
  }

  /** The minimum is checked before the cut, so a result can fall short of it:
      it holds enough quotes exactly when the cut is not below the minimum. */
  lemma {:induction false} EnoughAfterCut(config: Config, strategy: Strategy, valid: seq<Quote>, side: OrderSide)
    requires |valid| >= config.minQuotes
    ensures |Cut(Rank(strategy, valid, side), config.maxQuotes)| >= config.minQuotes <==>
            (config.maxQuotes.AtMost? ==> config.maxQuotes.max >= config.minQuotes)
  {
    CutKeepsBest(strategy, valid, side, config.maxQuotes);
    hide Rank;
  }
}
