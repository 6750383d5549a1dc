/** Per-connection subscription state. */
module Subscriptions {
  import opened Permutations

  type RfqId = nat

  datatype Kind = Quotes | Status

  datatype Subs = Subs(quotes: set<RfqId>, status: set<RfqId>) {
    function Of(kind: Kind): set<RfqId> {
      if kind == Quotes then quotes else status
    }

    function Count(): nat {
      |quotes| + |status|
    }

    function With(kind: Kind, id: RfqId): Subs {
      if kind == Quotes then this.(quotes := quotes + {id}) else this.(status := status + {id})
    }
  }

  const NONE := Subs({}, {})

  /** Subscribing is refused only when the limit is reached and the id is new
      to its own set. */
  predicate CanSubscribe(subs: Subs, max: nat, kind: Kind, id: RfqId) {
    subs.Count() < max || id in subs.Of(kind)
  }

  function Subscribed(subs: Subs, max: nat, kind: Kind, id: RfqId): (r: Subs) {
    if CanSubscribe(subs, max, kind, id) then subs.With(kind, id) else subs
  }

  function Unsubscribed(subs: Subs, id: RfqId): (r: Subs) {
    Subs(subs.quotes - {id}, subs.status - {id})
  }

  class SessionSubscriptions {
    const max: nat
    var quotes: set<RfqId>
    var status: set<RfqId>

    ghost function Value(): Subs
      reads this
    {
      Subs(quotes, status)
    }

    constructor (maxSubscriptions: nat)
      ensures max == maxSubscriptions && Value() == NONE
    {
      max, quotes, status := maxSubscriptions, {}, {};
    }

    method SubscribeQuotes(id: RfqId) returns (ok: bool)
      modifies this
      ensures ok == CanSubscribe(old(Value()), max, Quotes, id)
      ensures Value() == Subscribed(old(Value()), max, Quotes, id)
    {
      if |quotes| + |status| >= max && id !in quotes {
        return false;
      }
      quotes := quotes + {id};
      return true;
    }

    method SubscribeStatus(id: RfqId) returns (ok: bool)
      modifies this
      ensures ok == CanSubscribe(old(Value()), max, Status, id)
      ensures Value() == Subscribed(old(Value()), max, Status, id)
    {
      if |quotes| + |status| >= max && id !in status {
        return false;
      }
      status := status + {id};
      return true;
    }

    method Unsubscribe(id: RfqId)
      modifies this
      ensures Value() == Unsubscribed(old(Value()), id)
    {
      quotes := quotes - {id};
      status := status - {id};
    }
  }

  /** No operation takes the number of subscriptions over the limit; a refusal
      means the limit was reached and changes nothing. */
  lemma {:induction false} LimitKept(subs: Subs, max: nat, kind: Kind, id: RfqId)
    requires subs.Count() <= max
    ensures Subscribed(subs, max, kind, id).Count() <= max
    ensures Unsubscribed(subs, id).Count() <= subs.Count()
    ensures !CanSubscribe(subs, max, kind, id) ==> subs.Count() == max && Subscribed(subs, max, kind, id) == subs
    ensures CanSubscribe(subs, max, kind, id) <==> id in Subscribed(subs, max, kind, id).Of(kind)
    ensures forall k: Kind :: id !in Unsubscribed(subs, id).Of(k)
  {
    if id in subs.Of(kind) {
      assert subs.Of(kind) + {id} == subs.Of(kind);
    }
    SubsetSize(subs.quotes - {id}, subs.quotes);
    SubsetSize(subs.status - {id}, subs.status);
  }

  /** Neither operation touches any other id, and subscribing to one kind of
      update does not subscribe to the other. */
  lemma {:induction false} OthersUntouched(subs: Subs, max: nat, kind: Kind, id: RfqId, other: RfqId, k: Kind)
    ensures other != id || k != kind ==> (other in Subscribed(subs, max, kind, id).Of(k) <==> other in subs.Of(k))
    ensures other != id ==> (other in Unsubscribed(subs, id).Of(k) <==> other in subs.Of(k))
    ensures id in subs.Of(kind) ==> Subscribed(subs, max, kind, id) == subs
    ensures id !in subs.Of(kind) ==> Unsubscribed(Subscribed(subs, max, kind, id), id) == Unsubscribed(subs, id)
  {
    if id in subs.Of(kind) {
      assert subs.Of(kind) + {id} == subs.Of(kind);
    } else {
      assert subs.Of(kind) + {id} - {id} == subs.Of(kind) - {id};
    }
  }
}
