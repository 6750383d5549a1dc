/** Value objects shared by the ranking and fill services. */
module Domain {

  datatype Result<+T, +E> = Ok(value: T) | Err(error: E) {
    predicate IsFailure() { Err? }
    function PropagateFailure<U>(): Result<U, E>
      requires Err?
    {
      Err(error)
    }
    function Extract(): T
      requires Ok?
    {
      value
    }
  }

  datatype OrderSide = Buy | Sell

  // Price and Quantity are non-negative decimals; both are counted here in
  // their smallest unit.
  type Price = nat
  type Quantity = nat

  datatype Quote = Quote(id: nat, venue: nat, price: Price, quantity: Quantity)

  datatype RankedQuote = RankedQuote(quote: Quote, rank: nat, score: real)

  datatype Allocation = Allocation(venue: nat, quoteId: nat, quantity: Quantity, price: Price)

  datatype FillMode = AllOrNothing | FillOrKill | MinQuantity(minimum: Quantity) | BestEffort

  datatype DomainError =
    | InvalidQuantity
    | InvalidPrice
    | Underflow
    | InsufficientLiquidity(available: Quantity, requested: Quantity)
    | MinQuantityNotMet(filled: Quantity, minimum: Quantity)
    | AllocationMismatch(summed: Quantity, target: Quantity)

  function Min(a: nat, b: nat): (m: nat)
    ensures m <= a && m <= b && (m == a || m == b)
  {
    if a <= b then a else b
  }
}
